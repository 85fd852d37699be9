// `AugmentCodeIDEManager` (ide_manager.py): the totals and advice of a scan,
// the processes and files a selection of IDEs covers, how a selection is
// validated, and the outcome of terminating the running processes.  The IDE
// detector is not part of this model: what it finds (installations,
// processes, termination results, the table of supported IDEs) comes in as
// values.
module Ide {
  import opened Common

  /** An entry of an installation's file lists; `size` is absent when the detector recorded none. */
  datatype FileInfo = FileInfo(path: Path, size: Option<nat>)

  /** The `augmentcode_data` of one installation. */
  datatype Installation = Installation(configFiles: seq<FileInfo>, workspaceData: seq<FileInfo>,
                                       cacheFiles: seq<FileInfo>, extensions: seq<Path>)

  /** A running process that holds AugmentCode: its IDE's display name and key. */
  datatype Process = Process(pid: nat, ide: string, ideKey: string)

  /** One item of `detected_installations`, a dict kept in insertion order. */
  datatype IdeEntry = IdeEntry(key: string, installs: seq<Installation>)

  function Keys(det: seq<IdeEntry>): seq<string>
  {
    seq(|det|, i requires 0 <= i < |det| => det[i].key)
  }

  /** `detected_installations.get(key)`. */
  function Lookup(det: seq<IdeEntry>, key: string): Option<seq<Installation>>
  {
    if det == [] then None
    else if det[0].key == key then Some(det[0].installs)
    else Lookup(det[1..], key)
  }

  /** The dict lookup finds the entry with that key, if there is one. */
  lemma {:induction false} LookupSpec(det: seq<IdeEntry>, key: string)
    requires Distinct(Keys(det))
    ensures Lookup(det, key).None? <==> key !in Keys(det)
    ensures forall i :: 0 <= i < |det| && det[i].key == key ==> Lookup(det, key) == Some(det[i].installs)
  {
    if det != [] {
      assert Keys(det) == [det[0].key] + Keys(det[1..]);
      assert Distinct(Keys(det[1..])) by {
        forall i, j | 0 <= i < j < |det| - 1
          ensures Keys(det[1..])[i] != Keys(det[1..])[j]
        {
          assert Keys(det)[i + 1] != Keys(det)[j + 1];
        }
      }
      LookupSpec(det[1..], key);
      forall i | 0 <= i < |det| && det[i].key == key
        ensures Lookup(det, key) == Some(det[i].installs)
      {
        if i > 0 {
          assert Keys(det)[0] != Keys(det)[i];
          assert det[1..][i - 1] == det[i];
        }
      }
    }
  }

  /** The installation is listed as having AugmentCode data. */
  predicate HasData(det: seq<IdeEntry>, key: string)
  {
    Lookup(det, key).Some? && Lookup(det, key).value != []
  }

  // ------------------------------------------------------------------ scan

  /** The number of installations over all detected IDEs. */
  function InstallationTotal(det: seq<IdeEntry>): nat
  {
    if det == [] then 0 else InstallationTotal(det[..|det| - 1]) + |det[|det| - 1].installs|
  }

  /** The scan counts no installation exactly when every IDE's list is empty. */
  lemma {:induction false} InstallationTotalZero(det: seq<IdeEntry>)
    ensures InstallationTotal(det) == 0 <==> forall i :: 0 <= i < |det| ==> det[i].installs == []
  {
    if det != [] {
      var init := det[..|det| - 1];
      InstallationTotalZero(init);
      assert forall i :: 0 <= i < |init| ==> init[i] == det[i];
    }
  }

  function ProcessWarning(n: nat): string
  {
    "Found " + NatToString(n) + " running processes with AugmentCode. These should be closed before cleanup."
  }

  /** What `_generate_recommendations` advises, by kind rather than by sentence. */
  datatype Recommendation =
    | CloseIdes(ides: set<string>)
    | MultipleIdes(names: seq<string>)
    | ExtensiveData(name: string, files: nat)

  /** The advice, or the key whose name lookup raised `KeyError`. */
  datatype Advice = Advice(recs: seq<Recommendation>) | UnknownIde(key: string)

  function RunningIdes(procs: seq<Process>): set<string>
  {
    set p | p in procs :: p.ide
  }

  /** The number of files one installation holds across its three lists. */
  function FileCount(inst: Installation): nat
  {
    |inst.configFiles| + |inst.workspaceData| + |inst.cacheFiles|
  }

  /** The files over a list of installations. */
  function FileTotal(installs: seq<Installation>): nat
  {
    if installs == [] then 0 else FileTotal(installs[..|installs| - 1]) + FileCount(installs[|installs| - 1])
  }

  /** The keys, in dict order, among the first `n` entries, whose installation list is not empty. */
  function ActiveKeys(det: seq<IdeEntry>, n: nat): (ks: seq<string>)
    requires n <= |det|
    ensures |ks| <= n
  {
    if n == 0 then []
    else ActiveKeys(det, n - 1) + (if det[n - 1].installs != [] then [det[n - 1].key] else [])
  }

  lemma {:induction false} ActiveKeysSpec(det: seq<IdeEntry>, n: nat, k: string)
    requires n <= |det|
    ensures k in ActiveKeys(det, n) <==> exists i :: 0 <= i < n && det[i].key == k && det[i].installs != []
  {
    if n > 0 {
      ActiveKeysSpec(det, n - 1, k);
    }
  }

  /** Every IDE with installations among the first `n` entries is in the table of supported IDEs. */
  predicate Supports(det: seq<IdeEntry>, supported: map<string, string>, n: nat)
    requires n <= |det|
  {
    forall i :: 0 <= i < n && det[i].installs != [] ==> det[i].key in supported
  }

  lemma {:induction false} ActiveKeysSupported(det: seq<IdeEntry>, supported: map<string, string>, n: nat)
    requires n <= |det|
    ensures Supports(det, supported, n) <==> forall k :: k in ActiveKeys(det, n) ==> k in supported
  {
    if n > 0 {
      ActiveKeysSupported(det, supported, n - 1);
    }
  }

  lemma {:induction false} ActiveKeysPrefix(det: seq<IdeEntry>, m: nat, n: nat)
    requires m <= n <= |det|
    ensures ActiveKeys(det, m) <= ActiveKeys(det, n)
    decreases n - m
  {
    if m < n {
      ActiveKeysPrefix(det, m, n - 1);
    }
  }

  /** More than one IDE has installations exactly when two different entries do. */
  lemma {:induction false} ActiveKeysMany(det: seq<IdeEntry>, n: nat)
    requires n <= |det|
    ensures |ActiveKeys(det, n)| > 1 <==>
            exists i, j :: 0 <= i < j < n && det[i].installs != [] && det[j].installs != []
    ensures |ActiveKeys(det, n)| > 0 <==> exists i :: 0 <= i < n && det[i].installs != []
  {
    if n > 0 {
      ActiveKeysMany(det, n - 1);
      if det[n - 1].installs != [] && |ActiveKeys(det, n - 1)| == 1 {
        var k := ActiveKeys(det, n - 1)[0];
        ActiveKeysSpec(det, n - 1, k);
        var i :| 0 <= i < n - 1 && det[i].key == k && det[i].installs != [];
        assert det[i].installs != [] && det[n - 1].installs != [];
      }
    }
  }

  /** The first key that the table of supported IDEs has no entry for. */
  function FirstMissing(keys: seq<string>, supported: map<string, string>): (r: Option<string>)
    ensures r.None? <==> forall k :: k in keys ==> k in supported
    ensures r.Some? ==> r.value in keys && r.value !in supported
  {
    if keys == [] then None
    else if keys[0] !in supported then Some(keys[0])
    else
      assert forall k :: k in keys ==> k == keys[0] || k in keys[1..];
      FirstMissing(keys[1..], supported)
  }

  lemma {:induction false} FirstMissingPrefix(pre: seq<string>, keys: seq<string>, supported: map<string, string>)
    requires pre <= keys && FirstMissing(pre, supported).Some?
    ensures FirstMissing(keys, supported) == FirstMissing(pre, supported)
  {
    if pre[0] in supported {
      assert pre[1..] <= keys[1..];
      FirstMissingPrefix(pre[1..], keys[1..], supported);
    }
  }

  function SupportedNames(keys: seq<string>, supported: map<string, string>): seq<string>
    requires forall k :: k in keys ==> k in supported
  {
    seq(|keys|, i requires 0 <= i < |keys| => supported[keys[i]])
  }

  /** The names of the IDEs with installations, in dict order. */
  function ActiveNames(det: seq<IdeEntry>, supported: map<string, string>): seq<string>
    requires Supports(det, supported, |det|)
  {
    ActiveKeysSupported(det, supported, |det|);
    SupportedNames(ActiveKeys(det, |det|), supported)
  }

  /** The "extensive data" advice for the first `n` entries: each IDE with more than 50 files. */
  function ExtensiveRecs(det: seq<IdeEntry>, supported: map<string, string>, n: nat): seq<Recommendation>
    requires n <= |det| && Supports(det, supported, n)
  {
    if n == 0 then []
    else
      var e := det[n - 1];
      ExtensiveRecs(det, supported, n - 1)
      + (if e.installs != [] && FileTotal(e.installs) > 50
         then [ExtensiveData(supported[e.key], FileTotal(e.installs))] else [])
  }

  /** `_generate_recommendations` over the running processes and the detected installations. */
  function Recommendations(procs: seq<Process>, det: seq<IdeEntry>, supported: map<string, string>): Advice
  {
    var active := ActiveKeys(det, |det|);
    var missing := FirstMissing(active, supported);
    if missing.Some? then UnknownIde(missing.value)
    else
      ActiveKeysSupported(det, supported, |det|);
      Advice((if procs != [] then [CloseIdes(RunningIdes(procs))] else [])
             + (if |active| > 1 then [MultipleIdes(ActiveNames(det, supported))] else [])
             + ExtensiveRecs(det, supported, |det|))
  }

  lemma {:induction false} ExtensiveRecsSpec(det: seq<IdeEntry>, supported: map<string, string>, n: nat,
                                             name: string, files: nat)
    requires n <= |det| && Supports(det, supported, n)
    ensures ExtensiveData(name, files) in ExtensiveRecs(det, supported, n) <==>
            exists i :: 0 <= i < n && det[i].installs != [] && det[i].key in supported &&
                        FileTotal(det[i].installs) > 50 && name == supported[det[i].key] &&
                        files == FileTotal(det[i].installs)
  {
    if n > 0 {
      ExtensiveRecsSpec(det, supported, n - 1, name, files);
    }
  }

  /** The name lookup fails exactly when an IDE with installations is missing from the table. */
  lemma RecommendationsUnknownIde(procs: seq<Process>, det: seq<IdeEntry>, supported: map<string, string>)
    ensures Recommendations(procs, det, supported).UnknownIde? <==> !Supports(det, supported, |det|)
    ensures Recommendations(procs, det, supported).UnknownIde? ==>
            exists i :: 0 <= i < |det| && det[i].installs != [] && det[i].key == Recommendations(procs, det, supported).key
                        && det[i].key !in supported
  {
    ActiveKeysSupported(det, supported, |det|);
    var a := Recommendations(procs, det, supported);
    if a.UnknownIde? {
      ActiveKeysSpec(det, |det|, a.key);
    }
  }

  /** "Close these IDEs" is advised, naming their IDEs, exactly when processes are running. */
  lemma RecommendationsClose(procs: seq<Process>, det: seq<IdeEntry>, supported: map<string, string>)
    requires Supports(det, supported, |det|)
    ensures Recommendations(procs, det, supported).Advice?
    ensures CloseIdes(RunningIdes(procs)) in Recommendations(procs, det, supported).recs <==> procs != []
  {
    ActiveKeysSupported(det, supported, |det|);
    var active := ActiveKeys(det, |det|);
    assert forall r :: r in (if |active| > 1 then [MultipleIdes(ActiveNames(det, supported))] else []) ==>
      r.MultipleIdes?;
    ExtensiveRecsKind(det, supported, |det|);
  }

  /** "Several IDEs" is advised exactly when two different entries have installations. */
  lemma RecommendationsMultiple(procs: seq<Process>, det: seq<IdeEntry>, supported: map<string, string>)
    requires Supports(det, supported, |det|)
    ensures Recommendations(procs, det, supported).Advice?
    ensures MultipleIdes(ActiveNames(det, supported)) in Recommendations(procs, det, supported).recs <==>
      exists i, j :: 0 <= i < j < |det| && det[i].installs != [] && det[j].installs != []
  {
    ActiveKeysSupported(det, supported, |det|);
    ActiveKeysMany(det, |det|);
    ExtensiveRecsKind(det, supported, |det|);
  }

  /** "Extensive data" is advised for exactly the IDEs with installations holding more than 50 files. */
  lemma RecommendationsExtensive(procs: seq<Process>, det: seq<IdeEntry>, supported: map<string, string>,
                                 name: string, files: nat)
    requires Supports(det, supported, |det|)
    ensures Recommendations(procs, det, supported).Advice?
    ensures ExtensiveData(name, files) in Recommendations(procs, det, supported).recs <==>
            exists i :: 0 <= i < |det| && det[i].installs != [] && det[i].key in supported &&
                        FileTotal(det[i].installs) > 50 && name == supported[det[i].key] &&
                        files == FileTotal(det[i].installs)
  {
    ActiveKeysSupported(det, supported, |det|);
    ExtensiveRecsSpec(det, supported, |det|, name, files);
  }

  lemma {:induction false} ExtensiveRecsKind(det: seq<IdeEntry>, supported: map<string, string>, n: nat)
    requires n <= |det| && Supports(det, supported, n)
    ensures forall r :: r in ExtensiveRecs(det, supported, n) ==> r.ExtensiveData?
  {
    if n > 0 {
      ExtensiveRecsKind(det, supported, n - 1);
    }
  }

  /** Where the scan of the detected IDEs meets the first one missing from the table. */
  lemma MissingAt(det: seq<IdeEntry>, supported: map<string, string>, i: nat)
    requires i < |det| && Supports(det, supported, i)
    requires det[i].installs != [] && det[i].key !in supported
    ensures FirstMissing(ActiveKeys(det, |det|), supported) == Some(det[i].key)
  {
    ActiveKeysSupported(det, supported, i);
    ActiveKeysPrefix(det, i + 1, |det|);
    FirstMissingAtEnd(ActiveKeys(det, i), det[i].key, supported);
    FirstMissingPrefix(ActiveKeys(det, i + 1), ActiveKeys(det, |det|), supported);
  }

  /** What `perform_comprehensive_scan` returns. */
  datatype ScanResults = ScanResults(runningProcesses: seq<Process>, installations: seq<IdeEntry>,
                                     totalInstances: nat, recommendations: seq<Recommendation>,
                                     warnings: seq<string>)

  // ------------------------------------------------------------------ cleanup targets

  /** The IDE keys a selection stands for: `None` means every detected IDE. */
  function SelectedKeys(det: seq<IdeEntry>, selected: Option<seq<string>>): seq<string>
  {
    if selected.None? then Keys(det) else selected.value
  }

  /** The running processes of the selected IDEs, in their original order. */
  function ProcessesFor(procs: seq<Process>, sel: seq<string>): seq<Process>
  {
    if procs == [] then []
    else
      var p := procs[|procs| - 1];
      ProcessesFor(procs[..|procs| - 1], sel) + (if p.ideKey in sel then [p] else [])
  }

  lemma {:induction false} ProcessesForSpec(procs: seq<Process>, sel: seq<string>)
    ensures forall p :: p in ProcessesFor(procs, sel) <==> p in procs && p.ideKey in sel
    ensures |ProcessesFor(procs, sel)| <= |procs|
  {
    if procs != [] {
      var init := procs[..|procs| - 1];
      ProcessesForSpec(init, sel);
      assert procs == init + [procs[|procs| - 1]];
    }
  }

  /** An installation's config, workspace and cache files, in that order. */
  function FilesOf(inst: Installation): seq<FileInfo>
  {
    inst.configFiles + inst.workspaceData + inst.cacheFiles
  }

  function InstallFiles(installs: seq<Installation>): seq<FileInfo>
  {
    if installs == [] then [] else InstallFiles(installs[..|installs| - 1]) + FilesOf(installs[|installs| - 1])
  }

  function InstallDirs(installs: seq<Installation>): seq<Path>
  {
    if installs == [] then [] else InstallDirs(installs[..|installs| - 1]) + installs[|installs| - 1].extensions
  }

  lemma InstallsSnoc(installs: seq<Installation>, j: nat)
    requires j < |installs|
    ensures InstallFiles(installs[..j + 1]) == InstallFiles(installs[..j]) + FilesOf(installs[j])
    ensures InstallDirs(installs[..j + 1]) == InstallDirs(installs[..j]) + installs[j].extensions
  {
    TakeTake(installs, j + 1, j);
  }

  /** The files of the selected IDEs, in selection order; an IDE that was not detected adds nothing. */
  function TargetFiles(det: seq<IdeEntry>, sel: seq<string>): seq<FileInfo>
  {
    if sel == [] then []
    else
      var found := Lookup(det, sel[|sel| - 1]);
      TargetFiles(det, sel[..|sel| - 1]) + (if found.Some? then InstallFiles(found.value) else [])
  }

  function TargetDirs(det: seq<IdeEntry>, sel: seq<string>): seq<Path>
  {
    if sel == [] then []
    else
      var found := Lookup(det, sel[|sel| - 1]);
      TargetDirs(det, sel[..|sel| - 1]) + (if found.Some? then InstallDirs(found.value) else [])
  }

  /** `file_info.get('size', 0)`. */
  function SizeOf(f: FileInfo): nat
  {
    if f.size.Some? then f.size.value else 0
  }

  function TotalSize(files: seq<FileInfo>): nat
  {
    if files == [] then 0 else TotalSize(files[..|files| - 1]) + SizeOf(files[|files| - 1])
  }

  lemma {:induction false} TotalSizeAppend(a: seq<FileInfo>, b: seq<FileInfo>)
    ensures TotalSize(a + b) == TotalSize(a) + TotalSize(b)
    decreases |b|
  {
    if b == [] {
      assert a + b == a;
    } else {
      var init := b[..|b| - 1];
      assert (a + b)[..|a + b| - 1] == a + init;
      TotalSizeAppend(a, init);
    }
  }

  lemma {:induction false} InstallFilesSpec(installs: seq<Installation>, f: FileInfo)
    ensures f in InstallFiles(installs) <==> exists j :: 0 <= j < |installs| && f in FilesOf(installs[j])
  {
    if installs != [] {
      var init := installs[..|installs| - 1];
      InstallFilesSpec(init, f);
      assert forall j :: 0 <= j < |init| ==> init[j] == installs[j];
    }
  }

  /**
   * A file is a target exactly when it belongs to an installation of a
   * selected IDE that was detected.
   */
  lemma TargetFilesSpec(det: seq<IdeEntry>, sel: seq<string>, f: FileInfo)
    ensures f in TargetFiles(det, sel) <==> exists k :: 0 <= k < |sel| && InSelected(det, sel[k], f)
  {
    if f in TargetFiles(det, sel) {
      var k := TargetFilesSound(det, sel, f);
    }
    if exists k :: 0 <= k < |sel| && InSelected(det, sel[k], f) {
      var k :| 0 <= k < |sel| && InSelected(det, sel[k], f);
      TargetFilesComplete(det, sel, f, k);
    }
  }

  /** A target file comes from the installations of some selected, detected IDE. */
  lemma {:induction false} TargetFilesSound(det: seq<IdeEntry>, sel: seq<string>, f: FileInfo) returns (k: nat)
    requires f in TargetFiles(det, sel)
    ensures k < |sel| && InSelected(det, sel[k], f)
  {
    var init := sel[..|sel| - 1];
    if f in TargetFiles(det, init) {
      k := TargetFilesSound(det, init, f);
      assert init[k] == sel[k];
    } else {
      k := |sel| - 1;
      InstallFilesSpec(Lookup(det, sel[k]).value, f);
    }
  }

  /** Every file of an installation of a selected, detected IDE is a target. */
  lemma {:induction false} TargetFilesComplete(det: seq<IdeEntry>, sel: seq<string>, f: FileInfo, k: nat)
    requires k < |sel| && InSelected(det, sel[k], f)
    ensures f in TargetFiles(det, sel)
  {
    var init := sel[..|sel| - 1];
    if k < |init| {
      assert init[k] == sel[k];
      TargetFilesComplete(det, init, f, k);
    } else {
      InstallFilesSpec(Lookup(det, sel[k]).value, f);
    }
  }

  /** `f` belongs to an installation of the IDE `key`, which was detected. */
  predicate InSelected(det: seq<IdeEntry>, key: string, f: FileInfo)
  {
    var found := Lookup(det, key);
    found.Some? && exists j :: 0 <= j < |found.value| && f in FilesOf(found.value[j])
  }

  /** What `get_cleanup_targets` returns. */
  datatype CleanupTargets = CleanupTargets(processes: seq<Process>, files: seq<FileInfo>, directories: seq<Path>,
                                           totalSize: nat)

  // ------------------------------------------------------------------ validation

  datatype Validation = Validation(valid: bool, warnings: seq<string>, errors: seq<string>)

  function UnknownIdeError(key: string): string { "Unknown IDE: " + key }
  function NoDataWarning(name: string): string { "No AugmentCode data found for " + name }

  /** `validate_ide_selection` over the first `n` selected keys. */
  function Validate(selected: seq<string>, supported: map<string, string>, det: seq<IdeEntry>, n: nat): Validation
    requires n <= |selected|
  {
    if n == 0 then Validation(true, [], [])
    else
      var v := Validate(selected, supported, det, n - 1);
      var k := selected[n - 1];
      if k !in supported then v.(valid := false, errors := v.errors + [UnknownIdeError(k)])
      else if !HasData(det, k) then v.(warnings := v.warnings + [NoDataWarning(supported[k])])
      else v
  }

  /**
   * A selection is valid exactly when every key is a supported IDE, which is
   * exactly when there are no errors; each error names an unknown key and
   * each warning a supported IDE without data, and every such key is reported.
   */
  lemma {:induction false} ValidateSpec(selected: seq<string>, supported: map<string, string>, det: seq<IdeEntry>,
                                        n: nat, m: string)
    requires n <= |selected|
    ensures var v := Validate(selected, supported, det, n);
      && (v.valid <==> forall i :: 0 <= i < n ==> selected[i] in supported)
      && (v.errors == [] <==> v.valid)
      && |v.errors| + |v.warnings| <= n
      && (m in v.errors <==> exists i :: 0 <= i < n && selected[i] !in supported && m == UnknownIdeError(selected[i]))
      && (m in v.warnings <==>
          exists i :: 0 <= i < n && selected[i] in supported && !HasData(det, selected[i]) &&
                      m == NoDataWarning(supported[selected[i]]))
  {
    if n > 0 {
      ValidateSpec(selected, supported, det, n - 1, m);
    }
  }

  // ------------------------------------------------------------------ termination

  /** What the detector reports after terminating: the processes it could not stop. */
  datatype TerminationResults = TerminationResults(terminated: seq<Process>, failed: seq<Process>)

  datatype TerminationStatus = Success | Partial

  /** One item of `processes_by_ide`. */
  datatype IdeGroup = IdeGroup(ide: string, processes: seq<Process>)

  /** What `safe_terminate_processes` returns; `results` is absent when nothing was running. */
  datatype Termination = Termination(status: TerminationStatus, results: Option<TerminationResults>,
                                     byIde: seq<IdeGroup>)

  function GroupNames(groups: seq<IdeGroup>): seq<string>
  {
    seq(|groups|, i requires 0 <= i < |groups| => groups[i].ide)
  }

  /** Adding one process to `processes_by_ide`: to its IDE's group, or to a new group at the end. */
  function AddToGroups(groups: seq<IdeGroup>, p: Process): (r: seq<IdeGroup>)
    ensures |groups| <= |r| <= |groups| + 1
  {
    if groups == [] then [IdeGroup(p.ide, [p])]
    else if groups[0].ide == p.ide then [groups[0].(processes := groups[0].processes + [p])] + groups[1..]
    else [groups[0]] + AddToGroups(groups[1..], p)
  }

  /** `processes_by_ide` after the first `n` processes. */
  function Grouped(procs: seq<Process>, n: nat): seq<IdeGroup>
    requires n <= |procs|
  {
    if n == 0 then [] else AddToGroups(Grouped(procs, n - 1), procs[n - 1])
  }

  /** The first `n` processes of one IDE, in order. */
  function ProcessesOfIde(procs: seq<Process>, ide: string, n: nat): seq<Process>
    requires n <= |procs|
  {
    if n == 0 then [] else ProcessesOfIde(procs, ide, n - 1) + (if procs[n - 1].ide == ide then [procs[n - 1]] else [])
  }

  lemma {:induction false} AddToGroupsNames(groups: seq<IdeGroup>, p: Process)
    ensures var r := AddToGroups(groups, p);
      GroupNames(r) == GroupNames(groups) + (if p.ide in GroupNames(groups) then [] else [p.ide])
    ensures Distinct(GroupNames(groups)) ==> Distinct(GroupNames(AddToGroups(groups, p)))
  {
    AddToGroupsNameList(groups, p);
    var g := GroupNames(groups);
    if Distinct(g) && p.ide !in g {
      var h := g + [p.ide];
      forall i, j | 0 <= i < j < |h| ensures h[i] != h[j] {
        if j == |g| {
          assert h[i] == g[i];
        } else {
          assert h[i] == g[i] && h[j] == g[j];
        }
      }
    }
  }

  lemma {:induction false} AddToGroupsNameList(groups: seq<IdeGroup>, p: Process)
    ensures GroupNames(AddToGroups(groups, p))
         == GroupNames(groups) + (if p.ide in GroupNames(groups) then [] else [p.ide])
  {
    var r := AddToGroups(groups, p);
    if groups != [] {
      AddToGroupsNameList(groups[1..], p);
      assert GroupNames(groups) == [groups[0].ide] + GroupNames(groups[1..]);
      assert GroupNames(r) == [r[0].ide] + GroupNames(r[1..]);
    }
  }

  lemma DistinctTail(xs: seq<string>)
    requires Distinct(xs) && xs != []
    ensures Distinct(xs[1..]) && xs[0] !in xs[1..]
  {
    forall i, j | 0 <= i < j < |xs| - 1
      ensures xs[1..][i] != xs[1..][j]
    {
      assert xs[i + 1] != xs[j + 1];
    }
  }

  /** Adding a process extends its own IDE's group and leaves every other group as it was. */
  lemma {:induction false} AddToGroupsAt(groups: seq<IdeGroup>, p: Process, i: nat)
    requires Distinct(GroupNames(groups)) && i < |groups|
    ensures AddToGroups(groups, p)[i]
         == groups[i].(processes := groups[i].processes + (if groups[i].ide == p.ide then [p] else []))
  {
    if groups[0].ide == p.ide {
      if i > 0 {
        assert GroupNames(groups)[0] != GroupNames(groups)[i];
      }
    } else if i > 0 {
      DistinctTail(GroupNames(groups));
      assert GroupNames(groups)[1..] == GroupNames(groups[1..]);
      AddToGroupsAt(groups[1..], p, i - 1);
    }
  }

  /** A process of an IDE without a group opens a new group at the end. */
  lemma {:induction false} AddToGroupsNew(groups: seq<IdeGroup>, p: Process)
    ensures |AddToGroups(groups, p)| > |groups| <==> p.ide !in GroupNames(groups)
    ensures |AddToGroups(groups, p)| > |groups| ==> AddToGroups(groups, p)[|groups|] == IdeGroup(p.ide, [p])
  {
    if groups != [] {
      AddToGroupsNew(groups[1..], p);
      assert GroupNames(groups) == [groups[0].ide] + GroupNames(groups[1..]);
    }
  }

  /** `processes_by_ide` names each IDE once and has a group for every process. */
  lemma {:induction false} GroupedNames(procs: seq<Process>, n: nat)
    requires n <= |procs|
    ensures Distinct(GroupNames(Grouped(procs, n)))
  {
    if n > 0 {
      GroupedNames(procs, n - 1);
      AddToGroupsNames(Grouped(procs, n - 1), procs[n - 1]);
    }
  }

  lemma {:induction false} GroupedCovers(procs: seq<Process>, n: nat)
    requires n <= |procs|
    ensures forall i :: 0 <= i < n ==> procs[i].ide in GroupNames(Grouped(procs, n))
  {
    if n > 0 {
      GroupedCovers(procs, n - 1);
      AddToGroupsNames(Grouped(procs, n - 1), procs[n - 1]);
    }
  }


  /** Each group of `processes_by_ide` holds exactly its IDE's processes, in their original order. */
  lemma {:induction false} GroupedContents(procs: seq<Process>, n: nat)
    requires n <= |procs|
    ensures forall i :: 0 <= i < |Grouped(procs, n)| ==>
              Grouped(procs, n)[i].processes == ProcessesOfIde(procs, Grouped(procs, n)[i].ide, n)
  {
    if n > 0 {
      GroupedContents(procs, n - 1);
      forall i | 0 <= i < |Grouped(procs, n)|
        ensures Grouped(procs, n)[i].processes == ProcessesOfIde(procs, Grouped(procs, n)[i].ide, n)
      {
        if i < |Grouped(procs, n - 1)| {
          GroupedStep(procs, n - 1, i);
        } else {
          assert |Grouped(procs, n)| <= |Grouped(procs, n - 1)| + 1;
          GroupedStepNew(procs, n - 1);
        }
      }
    }
  }

  /** A group that existed before process `m` gains it exactly when it is of that group's IDE. */
  lemma GroupedStep(procs: seq<Process>, m: nat, i: nat)
    requires m < |procs| && i < |Grouped(procs, m)|
    requires Grouped(procs, m)[i].processes == ProcessesOfIde(procs, Grouped(procs, m)[i].ide, m)
    ensures i < |Grouped(procs, m + 1)|
    ensures Grouped(procs, m + 1)[i].processes == ProcessesOfIde(procs, Grouped(procs, m + 1)[i].ide, m + 1)
  {
    var g0 := Grouped(procs, m);
    var p := procs[m];
    assert Grouped(procs, m + 1) == AddToGroups(g0, p);
    GroupedNames(procs, m);
    AddToGroupsAt(g0, p, i);
  }

  /** A group that process `m` opens holds that process alone. */
  lemma GroupedStepNew(procs: seq<Process>, m: nat)
    requires m < |procs| && |Grouped(procs, m)| < |Grouped(procs, m + 1)|
    ensures var i := |Grouped(procs, m)|;
      Grouped(procs, m + 1)[i].processes == ProcessesOfIde(procs, Grouped(procs, m + 1)[i].ide, m + 1)
  {
    var g0 := Grouped(procs, m);
    var p := procs[m];
    assert Grouped(procs, m + 1) == AddToGroups(g0, p);
    AddToGroupsNew(g0, p);
    NewGroupEmpty(procs, m, p.ide);
    assert ProcessesOfIde(procs, p.ide, m + 1) == [] + [p];
  }

  /** An IDE without a group after `n` processes has had none of them. */
  lemma NewGroupEmpty(procs: seq<Process>, n: nat, ide: string)
    requires n <= |procs| && ide !in GroupNames(Grouped(procs, n))
    ensures ProcessesOfIde(procs, ide, n) == []
  {
    GroupedCovers(procs, n);
    NoProcessesOfIde(procs, ide, n);
  }

  lemma {:induction false} NoProcessesOfIde(procs: seq<Process>, ide: string, n: nat)
    requires n <= |procs| && forall i :: 0 <= i < n ==> procs[i].ide != ide
    ensures ProcessesOfIde(procs, ide, n) == []
  {
    if n > 0 {
      NoProcessesOfIde(procs, ide, n - 1);
    }
  }

  // ------------------------------------------------------------------ manager

  const NoInstallationsReport: string := "No AugmentCode installations detected across any supported IDEs."

  /**
   * `AugmentCodeIDEManager`: what the last scan detected, and which
   * processes are still thought to be running.
   */
  class IdeManager {
    var detected: seq<IdeEntry>
    var running: seq<Process>

    constructor ()
      ensures detected == [] && running == []
    {
      detected := [];
      running := [];
    }

    /**
     * `perform_comprehensive_scan`, given what the detector finds.  A name
     * lookup that raises while advising is caught: its message becomes a
     * warning and the advice stays empty.
     */
    method PerformComprehensiveScan(procs: seq<Process>, det: seq<IdeEntry>, supported: map<string, string>)
      returns (r: ScanResults)
      modifies this
      ensures running == procs && detected == det
      ensures r.runningProcesses == procs && r.installations == det
      ensures r.totalInstances == |procs| + InstallationTotal(det)
      ensures var a := Recommendations(procs, det, supported);
        && r.recommendations == (if a.Advice? then a.recs else [])
        && r.warnings == (if procs != [] then [ProcessWarning(|procs|)] else [])
                         + (if a.UnknownIde? then ["Scan error: '" + a.key + "'"] else [])
    {
      running := procs;
      var warnings: seq<string> := [];
      if running != [] {
        warnings := warnings + [ProcessWarning(|running|)];
      }
      detected := det;
      var total := |procs|;
      var i := 0;
      while i < |det|
        invariant 0 <= i <= |det|
        invariant total == |procs| + InstallationTotal(det[..i])
        invariant running == procs && detected == det
      {
        TakeTake(det, i + 1, i);
        total := total + |det[i].installs|;
        i := i + 1;
      }
      assert det[..i] == det;
      var advice := GenerateRecommendations(supported);
      var recs: seq<Recommendation> := [];
      if advice.Advice? {
        recs := advice.recs;
      } else {
        warnings := warnings + ["Scan error: '" + advice.key + "'"];
      }
      r := ScanResults(running, detected, total, recs, warnings);
    }

    /** `_generate_recommendations`. */
    method GenerateRecommendations(supported: map<string, string>) returns (a: Advice)
      ensures a == Recommendations(running, detected, supported)
    {
      var close: seq<Recommendation> := [];
      if running != [] {
        close := [CloseIdes(RunningIdes(running))];
      }
      var active := ActiveIdes();
      var multiple: seq<Recommendation> := [];
      if |active| > 1 {
        var missing, names := MultiIdeNames(active, supported);
        if missing.Some? {
          return UnknownIde(missing.value);
        }
        multiple := [MultipleIdes(names)];
      }
      var missing, extensive := ExtensiveAdvice(supported);
      if missing.Some? {
        return UnknownIde(missing.value);
      }
      a := Advice(close + multiple + extensive);
    }

    /** The names for the "several IDEs" advice; the first key missing from the table raises. */
    static method MultiIdeNames(active: seq<string>, supported: map<string, string>)
      returns (missing: Option<string>, names: seq<string>)
      ensures missing == FirstMissing(active, supported)
      ensures missing.None? ==> names == SupportedNames(active, supported)
    {
      names := [];
      var j := 0;
      while j < |active|
        invariant 0 <= j <= |active|
        invariant forall k :: k in active[..j] ==> k in supported
        invariant names == SupportedNames(active[..j], supported)
      {
        if active[j] !in supported {
          assert active[..j + 1] == active[..j] + [active[j]];
          FirstMissingAtEnd(active[..j], active[j], supported);
          FirstMissingPrefix(active[..j + 1], active, supported);
          return Some(active[j]), [];
        }
        names := names + [supported[active[j]]];
        j := j + 1;
      }
      assert active[..j] == active;
      missing := None;
    }

    /** The loop over the detected IDEs that advises on IDEs with more than 50 files. */
    method ExtensiveAdvice(supported: map<string, string>) returns (missing: Option<string>, recs: seq<Recommendation>)
      ensures missing == FirstMissing(ActiveKeys(detected, |detected|), supported)
      ensures missing.None? ==> Supports(detected, supported, |detected|) &&
                                recs == ExtensiveRecs(detected, supported, |detected|)
    {
      recs := [];
      var i := 0;
      while i < |detected|
        invariant 0 <= i <= |detected|
        invariant Supports(detected, supported, i)
        invariant recs == ExtensiveRecs(detected, supported, i)
      {
        var e := detected[i];
        if e.installs != [] {
          if e.key !in supported {
            MissingAt(detected, supported, i);
            return Some(e.key), [];
          }
          var files := CountFiles(e.installs);
          if files > 50 {
            recs := recs + [ExtensiveData(supported[e.key], files)];
          }
        }
        i := i + 1;
      }
      ActiveKeysSupported(detected, supported, i);
      missing := None;
    }

    /** The keys of the IDEs with installations, in dict order. */
    method ActiveIdes() returns (active: seq<string>)
      ensures active == ActiveKeys(detected, |detected|)
    {
      active := [];
      var i := 0;
      while i < |detected|
        invariant 0 <= i <= |detected|
        invariant active == ActiveKeys(detected, i)
      {
        if detected[i].installs != [] {
          active := active + [detected[i].key];
        }
        i := i + 1;
      }
    }

    /** The `sum(...)` over one IDE's installations in `_generate_recommendations`. */
    static method CountFiles(installs: seq<Installation>) returns (total: nat)
      ensures total == FileTotal(installs)
    {
      total := 0;
      var i := 0;
      while i < |installs|
        invariant 0 <= i <= |installs|
        invariant total == FileTotal(installs[..i])
      {
        TakeTake(installs, i + 1, i);
        total := total + FileCount(installs[i]);
        i := i + 1;
      }
      assert installs[..i] == installs;
    }

    /** `get_cleanup_targets`. */
    method GetCleanupTargets(selected: Option<seq<string>>) returns (t: CleanupTargets)
      ensures var sel := SelectedKeys(detected, selected);
        t == CleanupTargets(ProcessesFor(running, sel), TargetFiles(detected, sel), TargetDirs(detected, sel),
                            TotalSize(TargetFiles(detected, sel)))
    {
      var sel: seq<string>;
      if selected.None? {
        sel := Keys(detected);
      } else {
        sel := selected.value;
      }
      var procs: seq<Process> := [];
      var i := 0;
      while i < |running|
        invariant 0 <= i <= |running|
        invariant procs == ProcessesFor(running[..i], sel)
      {
        TakeTake(running, i + 1, i);
        if running[i].ideKey in sel {
          procs := procs + [running[i]];
        }
        i := i + 1;
      }
      assert running[..i] == running;
      var files: seq<FileInfo> := [];
      var dirs: seq<Path> := [];
      var size := 0;
      var k := 0;
      while k < |sel|
        invariant 0 <= k <= |sel|
        invariant files == TargetFiles(detected, sel[..k]) && dirs == TargetDirs(detected, sel[..k])
        invariant size == TotalSize(files)
      {
        TakeTake(sel, k + 1, k);
        var found := Lookup(detected, sel[k]);
        if found.Some? {
          files, dirs, size := AddInstallations(found.value, files, dirs, size);
        }
        k := k + 1;
      }
      assert sel[..k] == sel;
      t := CleanupTargets(procs, files, dirs, size);
    }

    /** The loop over one IDE's installations in `get_cleanup_targets`. */
    static method AddInstallations(installs: seq<Installation>, files0: seq<FileInfo>, dirs0: seq<Path>, size0: nat)
      returns (files: seq<FileInfo>, dirs: seq<Path>, size: nat)
      requires size0 == TotalSize(files0)
      ensures files == files0 + InstallFiles(installs) && dirs == dirs0 + InstallDirs(installs)
      ensures size == TotalSize(files)
    {
      files, dirs, size := files0, dirs0, size0;
      var j := 0;
      while j < |installs|
        invariant 0 <= j <= |installs|
        invariant files == files0 + InstallFiles(installs[..j]) && dirs == dirs0 + InstallDirs(installs[..j])
        invariant size == TotalSize(files)
      {
        InstallsSnoc(installs, j);
        ConcatAssoc(files0, InstallFiles(installs[..j]), FilesOf(installs[j]));
        ConcatAssoc(dirs0, InstallDirs(installs[..j]), installs[j].extensions);
        files, size := AddInstallation(installs[j], files, size);
        dirs := dirs + installs[j].extensions;
        j := j + 1;
      }
      assert installs[..j] == installs;
    }

    /** The loop over one installation's three file lists. */
    static method AddInstallation(data: Installation, files0: seq<FileInfo>, size0: nat)
      returns (files: seq<FileInfo>, size: nat)
      requires size0 == TotalSize(files0)
      ensures files == files0 + FilesOf(data) && size == TotalSize(files)
    {
      files, size := AddFiles(data.configFiles, files0, size0);
      files, size := AddFiles(data.workspaceData, files, size);
      files, size := AddFiles(data.cacheFiles, files, size);
    }

    /** The innermost loop of `get_cleanup_targets`: append each file and add its size. */
    static method AddFiles(list: seq<FileInfo>, files0: seq<FileInfo>, size0: nat)
      returns (files: seq<FileInfo>, size: nat)
      requires size0 == TotalSize(files0)
      ensures files == files0 + list && size == TotalSize(files)
    {
      files, size := files0, size0;
      var j := 0;
      while j < |list|
        invariant 0 <= j <= |list|
        invariant files == files0 + list[..j] && size == TotalSize(files)
      {
        assert list[..j + 1] == list[..j] + [list[j]];
        files := files + [list[j]];
        size := size + SizeOf(list[j]);
        j := j + 1;
      }
      assert list[..j] == list;
    }

    /**
     * `safe_terminate_processes`, given what the detector reports.  The
     * processes are forgotten whatever the outcome.
     */
    method SafeTerminateProcesses(outcome: TerminationResults) returns (t: Termination)
      modifies this
      ensures running == [] && detected == old(detected)
      ensures old(running) == [] ==> t == Termination(Success, None, [])
      ensures old(running) != [] ==>
        t == Termination(if outcome.failed == [] then Success else Partial, Some(outcome),
                         Grouped(old(running), |old(running)|))
    {
      if running == [] {
        return Termination(Success, None, []);
      }
      var groups: seq<IdeGroup> := [];
      var i := 0;
      while i < |running|
        invariant 0 <= i <= |running|
        invariant groups == Grouped(running, i)
      {
        groups := AddToGroups(groups, running[i]);
        i := i + 1;
      }
      running := [];
      t := Termination(if outcome.failed == [] then Success else Partial, Some(outcome), groups);
    }

    /** `generate_detailed_report`: the detector's report, unless nothing was found. */
    method GenerateDetailedReport(detectorReport: string) returns (report: string)
      ensures report == NoInstallationsReport <== detected == [] && running == []
      ensures detected != [] || running != [] ==> report == detectorReport
    {
      if detected == [] && running == [] {
        return NoInstallationsReport;
      }
      report := detectorReport;
    }

    /** `validate_ide_selection`. */
    method ValidateIdeSelection(selected: seq<string>, supported: map<string, string>) returns (v: Validation)
      ensures v == Validate(selected, supported, detected, |selected|)
    {
      v := Validation(true, [], []);
      var i := 0;
      while i < |selected|
        invariant 0 <= i <= |selected|
        invariant v == Validate(selected, supported, detected, i)
      {
        var key := selected[i];
        if key !in supported {
          v := v.(valid := false, errors := v.errors + [UnknownIdeError(key)]);
        } else if !HasData(detected, key) {
          v := v.(warnings := v.warnings + [NoDataWarning(supported[key])]);
        }
        i := i + 1;
      }
    }
  }

  lemma {:induction false} FirstMissingAtEnd(pre: seq<string>, k: string, supported: map<string, string>)
    requires forall x :: x in pre ==> x in supported
    requires k !in supported
    ensures FirstMissing(pre + [k], supported) == Some(k)
  {
    if pre != [] {
      assert (pre + [k])[1..] == pre[1..] + [k];
      assert pre[0] in pre;
      FirstMissingAtEnd(pre[1..], k, supported);
    }
  }
}
