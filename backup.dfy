// The backup store: a timestamped directory under the backup root holding
// copies of files and directories, registry dumps, and an append-only
// manifest `backup_manifest.json` that restore replays.
module Backup {
  import opened Common
  import opened Timestamps

  const ManifestName: string := "backup_manifest.json"
  const BackupKind: string := "AugmentCode_Data_Cleanup"
  const BackupPrefix: string := "Backup_"
  const DefaultRootName: string := "FreeAugmentCode_Backups"

  /** One manifest entry, as `_update_manifest` records it. */
  datatype Item =
    | FileItem(source: Path, destination: Path, size: nat)
    | DirectoryItem(source: Path, destination: Path, size: nat)
    | RegistryItem(keyPath: string, backupFile: Path)

  /** `item.get('size', 0)`: registry items carry no size. */
  function ItemSize(item: Item): nat
  {
    if item.RegistryItem? then 0 else item.size
  }

  function ItemSizes(items: seq<Item>): (r: seq<nat>)
    ensures |r| == |items| && forall i :: 0 <= i < |items| ==> r[i] == ItemSize(items[i])
  {
    seq(|items|, i requires 0 <= i < |items| => ItemSize(items[i]))
  }

  datatype Manifest = Manifest(timestamp: Option<string>, backupType: string, items: seq<Item>)

  /**
   * The disk as the backup store sees it: file contents, existing
   * directories, and for each directory holding a `backup_manifest.json`
   * what `safe_read_json` makes of it (`None`: unreadable, or an empty
   * document, which `if manifest:` treats alike).
   */
  datatype Disk = Disk(files: map<Path, string>, dirs: set<Path>, manifests: map<Path, Option<Manifest>>)

  /** What an operation reports, and the disk it leaves. */
  datatype Outcome = Outcome(ok: bool, disk: Disk)

  predicate Exists(d: Disk, p: Path) { p in d.files || p in d.dirs }

  /** `safe_read_json(dir / 'backup_manifest.json')` gives a non-empty manifest. */
  predicate Readable(d: Disk, dir: Path)
  {
    dir in d.manifests && d.manifests[dir].Some?
  }

  function Items(d: Disk, dir: Path): seq<Item>
    requires Readable(d, dir)
  {
    d.manifests[dir].value.items
  }

  /** `p` itself and every directory above it. */
  function Prefixes(p: Path): set<Path>
  {
    set k | 1 <= k <= |p| :: p[..k]
  }

  /** `p.mkdir(parents=True, exist_ok=True)`. */
  function MakeDirs(d: Disk, p: Path): Disk
  {
    d.(dirs := d.dirs + Prefixes(p))
  }

  predicate StrictlyBelow(p: Path, base: Path)
  {
    |base| < |p| && p[..|base|] == base
  }

  /** The path `p` below `src` gets when the tree at `src` is copied to `dst`. */
  function Rebase(p: Path, src: Path, dst: Path): Path
    requires |src| <= |p|
  {
    dst + p[|src|..]
  }

  /** Distinct paths below `src` are copied to distinct places. */
  lemma RebaseInjective(src: Path, dst: Path)
    ensures forall p, q :: StrictlyBelow(p, src) && StrictlyBelow(q, src) && Rebase(p, src, dst) == Rebase(q, src, dst) ==> p == q
  {
    forall p, q | StrictlyBelow(p, src) && StrictlyBelow(q, src) && Rebase(p, src, dst) == Rebase(q, src, dst)
      ensures p == q
    {
      assert p[|src|..] == Rebase(p, src, dst)[|dst|..];
      assert q[|src|..] == Rebase(q, src, dst)[|dst|..];
      assert p == p[..|src|] + p[|src|..] && q == q[..|src|] + q[|src|..];
    }
  }

  /**
   * `shutil.copytree(src, dst, dirs_exist_ok=True)`: every file and
   * directory below `src` reappears at the same place below `dst`; what
   * `dst` held before and has no counterpart in `src` stays.
   */
  function CopyTree(d: Disk, src: Path, dst: Path): Disk
  {
    RebaseInjective(src, dst);
    d.(files := d.files + (map p | p in d.files && StrictlyBelow(p, src) :: Rebase(p, src, dst) := d.files[p]),
       dirs := d.dirs + Prefixes(dst) + (set p | p in d.dirs && StrictlyBelow(p, src) :: Rebase(p, src, dst)))
  }

  /** `shutil.rmtree(p)`: `p` and everything below it disappear. */
  function RemoveTree(d: Disk, p: Path): Disk
  {
    d.(files := map q | q in d.files && !AtOrBelow(q, p) :: d.files[q],
       dirs := set q | q in d.dirs && !AtOrBelow(q, p))
  }

  // ------------------------------------------------------------- manifest

  /**
   * `_update_manifest`: read the manifest, append the item, write it back;
   * when the manifest cannot be read nothing happens.
   */
  function UpdateManifest(d: Disk, dir: Path, item: Item): (r: Disk)
    ensures r.files == d.files && r.dirs == d.dirs && r.manifests.Keys == d.manifests.Keys
    ensures forall p :: p in d.manifests && p != dir ==> r.manifests[p] == d.manifests[p]
    ensures Readable(d, dir) ==>
      (Readable(r, dir) && Items(r, dir) == Items(d, dir) + [item]
       && r.manifests[dir].value.timestamp == d.manifests[dir].value.timestamp
       && r.manifests[dir].value.backupType == d.manifests[dir].value.backupType)
    ensures !Readable(d, dir) ==> r == d
  {
    if Readable(d, dir) then
      var m := d.manifests[dir].value;
      d.(manifests := d.manifests[dir := Some(m.(items := m.items + [item]))])
    else d
  }

  /** The manifest of `dir` after is the one before with zero or more items appended. */
  predicate AppendOnly(before: Disk, after: Disk, dir: Path)
  {
    Readable(before, dir) ==>
      (Readable(after, dir)
       && Items(before, dir) <= Items(after, dir)
       && after.manifests[dir].value.timestamp == before.manifests[dir].value.timestamp
       && after.manifests[dir].value.backupType == before.manifests[dir].value.backupType)
  }

  // --------------------------------------------------- creating a backup dir

  /** The directory a backup started at clock reading `t` lives in. */
  function BackupDirFor(root: Path, t: DateTime): (dir: Path)
    requires ValidDateTime(t)
    ensures |dir| == |root| + 1 && dir[..|root|] == root
    ensures StartsWith(PathName(dir), BackupPrefix) && |PathName(dir)| == 22
  {
    root + [BackupName(t)]
  }

  /**
   * `create_timestamped_backup_dir`: `dirTime` and `stampTime` are the two
   * `datetime.now()` readings; `writeOk` is whether the manifest write
   * succeeds (its result is ignored).
   */
  function CreateBackupDir(d: Disk, root: Path, dirTime: DateTime, stampTime: DateTime, writeOk: bool): (r: Disk)
    requires ValidDateTime(dirTime) && ValidDateTime(stampTime)
    ensures BackupDirFor(root, dirTime) in r.dirs && d.dirs <= r.dirs && r.files == d.files
    ensures writeOk ==>
      (Readable(r, BackupDirFor(root, dirTime))
       && r.manifests[BackupDirFor(root, dirTime)] == Some(Manifest(Some(IsoFormat(stampTime)), BackupKind, [])))
    ensures forall p :: p in d.manifests && p != BackupDirFor(root, dirTime) ==>
      p in r.manifests && r.manifests[p] == d.manifests[p]
    ensures !writeOk ==> r.manifests == d.manifests
  {
    var dir := BackupDirFor(root, dirTime);
    assert dir == dir[..|dir|];
    var d1 := MakeDirs(d, dir);
    if writeOk then d1.(manifests := d1.manifests[dir := Some(Manifest(Some(IsoFormat(stampTime)), BackupKind, []))])
    else d1
  }

  /**
   * Two backups started within the same second share one directory, and the
   * second start replaces the first one's manifest by an empty one.
   */
  lemma SameSecondSharesDirectory(d: Disk, root: Path, t1: DateTime, s1: DateTime, t2: DateTime, s2: DateTime)
    requires ValidDateTime(t1) && ValidDateTime(s1) && ValidDateTime(t2) && ValidDateTime(s2)
    ensures BackupDirFor(root, t1) == BackupDirFor(root, t2) <==> SameSecond(t1, t2)
    ensures SameSecond(t1, t2) ==> Items(CreateBackupDir(d, root, t2, s2, true), BackupDirFor(root, t1)) == []
  {
    BackupNameOrder(t1, t2);
    if BackupDirFor(root, t1) == BackupDirFor(root, t2) {
      assert BackupDirFor(root, t1)[|root|] == BackupName(t1);
    }
  }

  // ----------------------------------------------------------- file backup

  /** Where `backup_file` puts its copy: `relative_path` if given, else `files/<name>`. */
  function FileDestination(dir: Path, source: Path, relative: Path): (dest: Path)
    ensures StrictlyBelow(dest, dir)
    ensures relative == [] ==> dest == dir + ["files", PathName(source)]
    ensures relative != [] ==> dest == dir + relative
  {
    if relative != [] then dir + relative else dir + ["files", PathName(source)]
  }

  /**
   * `backup_file(source, dir, relative)`; `copyOk` is whether `copy2`
   * succeeds.  The parent of the destination is created before the copy is
   * attempted, so a failed copy still leaves that directory behind.
   */
  function BackupFileOutcome(d: Disk, source: Path, dir: Path, relative: Path, copyOk: bool): (r: Outcome)
    ensures r.ok <==> source in d.files && copyOk
    ensures !Exists(d, source) ==> r.disk == d
    ensures d.dirs <= r.disk.dirs
    ensures r.ok ==>
      (r.disk.files == d.files[FileDestination(dir, source, relative) := d.files[source]]
       && r.disk.manifests == UpdateManifest(d, dir, FileItem(source, FileDestination(dir, source, relative), |d.files[source]|)).manifests)
    ensures !r.ok ==> r.disk.files == d.files && r.disk.manifests == d.manifests
  {
    if !Exists(d, source) then Outcome(false, d)
    else
      var dest := FileDestination(dir, source, relative);
      var d1 := MakeDirs(d, Parent(dest));
      if !copyOk || source !in d.files then Outcome(false, d1)
      else
        var d2 := d1.(files := d1.files[dest := d.files[source]]);
        Outcome(true, UpdateManifest(d2, dir, FileItem(source, dest, |d.files[source]|)))
  }

  // ------------------------------------------------------ directory backup

  /** Where `backup_directory` puts its copy: `relative_path` if given, else `directories/<name>`. */
  function DirectoryDestination(dir: Path, source: Path, relative: Path): (dest: Path)
    ensures relative == [] ==> dest == dir + ["directories", PathName(source)]
    ensures relative != [] ==> dest == dir + relative
  {
    if relative != [] then dir + relative else dir + ["directories", PathName(source)]
  }

  /** The files `src.rglob('*')` finds. */
  function FilesBelow(d: Disk, src: Path): (r: set<Path>)
    ensures r <= d.files.Keys
  {
    set p | p in d.files && StrictlyBelow(p, src)
  }

  /** The summed sizes of the files `ps`. */
  ghost function SizeOf(files: map<Path, string>, ps: set<Path>): nat
    requires ps <= files.Keys
    decreases ps
  {
    if ps == {} then 0 else var p :| p in ps; |files[p]| + SizeOf(files, ps - {p})
  }

  /** The sum does not depend on the order the files are taken in. */
  lemma {:induction false} SizeOfRemove(files: map<Path, string>, ps: set<Path>, p: Path)
    requires p in ps && ps <= files.Keys
    ensures SizeOf(files, ps) == |files[p]| + SizeOf(files, ps - {p})
    decreases ps
  {
    var q :| q in ps && SizeOf(files, ps) == |files[q]| + SizeOf(files, ps - {q});
    if q != p {
      SizeOfRemove(files, ps - {q}, p);
      SizeOfRemove(files, ps - {p}, q);
      assert ps - {q} - {p} == ps - {p} - {q};
    }
  }

  /** `sum(f.stat().st_size for f in src.rglob('*') if f.is_file())`. */
  ghost function TreeSize(d: Disk, src: Path): nat
  {
    SizeOf(d.files, FilesBelow(d, src))
  }

  /**
   * `backup_directory(source, dir, relative)`; `copyOk` is whether
   * `copytree` succeeds (it fails on a source that is a file).
   */
  ghost function BackupDirectoryOutcome(d: Disk, source: Path, dir: Path, relative: Path, copyOk: bool): (r: Outcome)
    ensures r.ok <==> source in d.dirs && copyOk
    ensures !r.ok ==> r.disk == d
    ensures r.ok ==> var dest := DirectoryDestination(dir, source, relative);
      r.disk.files == CopyTree(d, source, dest).files
      && r.disk.manifests == UpdateManifest(d, dir, DirectoryItem(source, dest, TreeSize(CopyTree(d, source, dest), source))).manifests
  {
    if !Exists(d, source) || !copyOk || source !in d.dirs then Outcome(false, d)
    else
      var dest := DirectoryDestination(dir, source, relative);
      var copied := CopyTree(d, source, dest);
      Outcome(true, UpdateManifest(copied, dir, DirectoryItem(source, dest, TreeSize(copied, source))))
  }

  /** A copied tree holds, at every rebased path, the content of the file it came from. */
  lemma CopyTreeCopies(d: Disk, src: Path, dst: Path, p: Path)
    requires p in d.files && StrictlyBelow(p, src)
    ensures Rebase(p, src, dst) in CopyTree(d, src, dst).files
    ensures CopyTree(d, src, dst).files[Rebase(p, src, dst)] == d.files[p]
  {
    RebaseInjective(src, dst);
    var copied := map q | q in d.files && StrictlyBelow(q, src) :: Rebase(q, src, dst) := d.files[q];
    assert Rebase(p, src, dst) in copied && copied[Rebase(p, src, dst)] == d.files[p];
  }

  // -------------------------------------------------------- registry backup

  /** `key_path.replace('\\', '_').replace('/', '_').replace(':', '_')`. */
  function SafeKeyName(keyPath: string): (r: string)
    ensures |r| == |keyPath|
    ensures '\\' !in r && '/' !in r && ':' !in r
    ensures forall i :: 0 <= i < |r| ==> r[i] == (if keyPath[i] in "\\/:" then '_' else keyPath[i])
  {
    var s1 := ReplaceAll(keyPath, "\\", "_");
    ReplaceCharIsMap(keyPath, '\\', '_');
    var s2 := ReplaceAll(s1, "/", "_");
    ReplaceCharIsMap(s1, '/', '_');
    ReplaceCharIsMap(s2, ':', '_');
    ReplaceAll(s2, ":", "_")
  }

  /** `backup_dir / 'registry' / f"{safe_filename}.json"`. */
  function RegistryFile(dir: Path, keyPath: string): Path
  {
    dir + ["registry", SafeKeyName(keyPath) + ".json"]
  }

  /**
   * `backup_registry_key`: only on Windows; `record` is the JSON text of the
   * key dump and `writeOk` whether `safe_write_json` succeeds.
   */
  function BackupRegistryOutcome(d: Disk, dir: Path, keyPath: string, record: string,
                                 isWindows: bool, writeOk: bool): (r: Outcome)
    ensures !isWindows ==> r == Outcome(false, d)
    ensures r.ok <==> isWindows && writeOk
    ensures r.ok ==>
      (r.disk.files == d.files[RegistryFile(dir, keyPath) := record]
       && r.disk.manifests == UpdateManifest(d, dir, RegistryItem(keyPath, RegistryFile(dir, keyPath))).manifests)
    ensures !r.ok ==> r.disk.files == d.files && r.disk.manifests == d.manifests
  {
    if !isWindows then Outcome(false, d)
    else
      var d1 := MakeDirs(d, dir + ["registry"]);
      var file := RegistryFile(dir, keyPath);
      if !writeOk then Outcome(false, d1)
      else Outcome(true, UpdateManifest(d1.(files := d1.files[file := record]), dir, RegistryItem(keyPath, file)))
  }

  /** None of the backup operations ever removes or rewrites an earlier manifest item. */
  lemma BackupsAppendOnly(d: Disk, dir: Path, other: Path, source: Path, relative: Path, copyOk: bool,
                          keyPath: string, record: string, isWindows: bool, writeOk: bool)
    ensures AppendOnly(d, BackupFileOutcome(d, source, dir, relative, copyOk).disk, other)
    ensures AppendOnly(d, BackupDirectoryOutcome(d, source, dir, relative, copyOk).disk, other)
    ensures AppendOnly(d, BackupRegistryOutcome(d, dir, keyPath, record, isWindows, writeOk).disk, other)
  {
    BackupFileAppendOnly(d, dir, other, source, relative, copyOk);
    BackupDirectoryAppendOnly(d, dir, other, source, relative, copyOk);
    BackupRegistryAppendOnly(d, dir, other, keyPath, record, isWindows, writeOk);
  }

  lemma BackupFileAppendOnly(d: Disk, dir: Path, other: Path, source: Path, relative: Path, copyOk: bool)
    ensures AppendOnly(d, BackupFileOutcome(d, source, dir, relative, copyOk).disk, other)
  {
  }

  lemma BackupDirectoryAppendOnly(d: Disk, dir: Path, other: Path, source: Path, relative: Path, copyOk: bool)
    ensures AppendOnly(d, BackupDirectoryOutcome(d, source, dir, relative, copyOk).disk, other)
  {
  }

  lemma BackupRegistryAppendOnly(d: Disk, dir: Path, other: Path, keyPath: string, record: string,
                                 isWindows: bool, writeOk: bool)
    ensures AppendOnly(d, BackupRegistryOutcome(d, dir, keyPath, record, isWindows, writeOk).disk, other)
  {
  }

  // ------------------------------------------------------------- restore

  datatype Restored = Restored(count: nat, disk: Disk)

  /**
   * One pass of the restore loop: a file item is copied back over its
   * source, a directory item replaces its source tree, a registry item is
   * skipped.  The flag says whether `success_count` went up; an exception
   * (a backup copy of the wrong kind) leaves what was done before it.
   */
  function RestoreItem(d: Disk, item: Item): (r: Outcome)
    ensures r.ok ==> !item.RegistryItem?
    ensures item.FileItem? ==> (r.ok <==> item.destination in d.files)
    ensures item.FileItem? && r.ok ==> r.disk.files == d.files[item.source := d.files[item.destination]]
    ensures item.FileItem? ==> r.disk.manifests == d.manifests
    ensures item.RegistryItem? ==> r.disk == d
  {
    match item
    case FileItem(source, destination, _) =>
      if !Exists(d, destination) then Outcome(false, d)
      else
        var d1 := MakeDirs(d, Parent(source));
        if destination !in d.files then Outcome(false, d1)
        else Outcome(true, d1.(files := d1.files[source := d.files[destination]]))
    case DirectoryItem(source, destination, _) =>
      if !Exists(d, destination) then Outcome(false, d)
      else if source in d.files then Outcome(false, d)
      else
        var d1 := if source in d.dirs then RemoveTree(d, source) else d;
        if destination !in d.dirs then Outcome(false, d1)
        else Outcome(true, CopyTree(d1, destination, source))
    case RegistryItem(_, _) => Outcome(false, d)
  }

  /** The restore loop over the first items of the manifest. */
  function RestoreItems(d: Disk, items: seq<Item>): (r: Restored)
    ensures r.count <= |items|
  {
    if items == [] then Restored(0, d)
    else
      var prev := RestoreItems(d, items[..|items| - 1]);
      var step := RestoreItem(prev.disk, items[|items| - 1]);
      Restored(prev.count + if step.ok then 1 else 0, step.disk)
  }

  /** `restore_from_backup(dir)`. */
  function RestoreOutcome(d: Disk, dir: Path): (r: Outcome)
    ensures !Readable(d, dir) ==> r == Outcome(false, d)
    ensures Readable(d, dir) ==> r.ok == (RestoreItems(d, Items(d, dir)).count > 0)
    ensures Readable(d, dir) && (forall i :: 0 <= i < |Items(d, dir)| ==> Items(d, dir)[i].RegistryItem?) ==> !r.ok
  {
    if dir !in d.manifests || d.manifests[dir].None? then Outcome(false, d)
    else
      var res := RestoreItems(d, d.manifests[dir].value.items);
      RegistryOnlyRestoresNothing(d, d.manifests[dir].value.items);
      Outcome(res.count > 0, res.disk)
  }

  /** Registry items are never counted as restored. */
  lemma {:induction false} RegistryOnlyRestoresNothing(d: Disk, items: seq<Item>)
    ensures (forall i :: 0 <= i < |items| ==> items[i].RegistryItem?) ==> RestoreItems(d, items) == Restored(0, d)
    decreases |items|
  {
    if items != [] && forall i :: 0 <= i < |items| ==> items[i].RegistryItem? {
      RegistryOnlyRestoresNothing(d, items[..|items| - 1]);
      assert items[..|items| - 1][0..] == items[..|items| - 1];
      assert forall i :: 0 <= i < |items| - 1 ==> items[..|items| - 1][i] == items[i];
    }
  }

  /** File items whose backups are all present, none overwriting another's backup copy. */
  predicate RestorableFiles(d: Disk, items: seq<Item>)
  {
    (forall i :: 0 <= i < |items| ==> items[i].FileItem? && items[i].destination in d.files)
    && (forall i, j :: 0 <= i < |items| && 0 <= j < |items| ==> items[i].source != items[j].destination)
    && (forall i, j :: 0 <= i < j < |items| ==> items[i].source != items[j].source)
  }

  /**
   * Restoring file items whose backup copies are present puts every backup
   * copy back at its source, counts every item, and leaves every other file
   * alone.
   */
  lemma {:induction false} RestoreFileItems(d: Disk, items: seq<Item>)
    requires RestorableFiles(d, items)
    ensures RestoreItems(d, items).count == |items|
    ensures forall i :: 0 <= i < |items| ==>
      items[i].source in RestoreItems(d, items).disk.files
      && RestoreItems(d, items).disk.files[items[i].source] == d.files[items[i].destination]
    ensures forall p :: p in d.files && (forall i :: 0 <= i < |items| ==> items[i].source != p) ==>
      p in RestoreItems(d, items).disk.files && RestoreItems(d, items).disk.files[p] == d.files[p]
    ensures RestoreItems(d, items).disk.manifests == d.manifests
    decreases |items|
  {
    if items != [] {
      var n := |items| - 1;
      var init := items[..n];
      RestorableInit(d, items);
      RestoreFileItems(d, init);
      var prev := RestoreItems(d, init);
      RestoreFileLast(d, items, prev.disk.files);
      RestoreItemsSnoc(d, items);
    }
  }

  lemma RestorableInit(d: Disk, items: seq<Item>)
    requires RestorableFiles(d, items) && items != []
    ensures RestorableFiles(d, items[..|items| - 1])
  {
  }

  /** A restore of several items is the restore of all but the last, then the last. */
  lemma RestoreItemsSnoc(d: Disk, items: seq<Item>)
    requires items != []
    ensures var prev := RestoreItems(d, items[..|items| - 1]);
      var step := RestoreItem(prev.disk, items[|items| - 1]);
      RestoreItems(d, items) == Restored(prev.count + if step.ok then 1 else 0, step.disk)
  {
  }

  /** The last item of a restore: its backup copy is still in place, and putting it back keeps what came before. */
  lemma RestoreFileLast(d: Disk, items: seq<Item>, prev: map<Path, string>)
    requires RestorableFiles(d, items) && items != []
    requires var init := items[..|items| - 1]; forall i :: 0 <= i < |init| ==>
      init[i].source in prev && prev[init[i].source] == d.files[init[i].destination]
    requires var init := items[..|items| - 1];
      forall p :: p in d.files && (forall i :: 0 <= i < |init| ==> init[i].source != p) ==>
        p in prev && prev[p] == d.files[p]
    ensures var last := items[|items| - 1];
      last.destination in prev && prev[last.destination] == d.files[last.destination]
    ensures var last := items[|items| - 1]; var next := prev[last.source := d.files[last.destination]];
      && (forall i :: 0 <= i < |items| ==>
            items[i].source in next && next[items[i].source] == d.files[items[i].destination])
      && (forall p :: p in d.files && (forall i :: 0 <= i < |items| ==> items[i].source != p) ==>
            p in next && next[p] == d.files[p])
  {
    var n := |items| - 1;
    var last := items[n];
    var init := items[..n];
    assert forall i :: 0 <= i < n ==> init[i] == items[i];
    assert forall i :: 0 <= i < n ==> items[i].source != last.destination;
    var next := prev[last.source := d.files[last.destination]];
    forall i | 0 <= i < |items|
      ensures items[i].source in next && next[items[i].source] == d.files[items[i].destination]
    {
      if i < n {
        assert items[i].source != last.source;
      }
    }
  }


  // ------------------------------------------------- backup, then restore

  /** Backing up `sources` one after the other into `dir`, every copy succeeding. */
  function BackupFiles(d: Disk, dir: Path, sources: seq<Path>, rels: seq<Path>): (r: Disk)
    requires |rels| == |sources|
    ensures AppendOnly(d, r, dir)
    decreases |sources|
  {
    if sources == [] then d
    else
      var n := |sources| - 1;
      BackupFileOutcome(BackupFiles(d, dir, sources[..n], rels[..n]), sources[n], dir, rels[n], true).disk
  }

  function Destinations(dir: Path, sources: seq<Path>, rels: seq<Path>): (r: seq<Path>)
    requires |rels| == |sources|
    ensures |r| == |sources| && forall i :: 0 <= i < |r| ==> r[i] == FileDestination(dir, sources[i], rels[i])
  {
    seq(|sources|, i requires 0 <= i < |sources| => FileDestination(dir, sources[i], rels[i]))
  }

  /** The manifest items a successful run of `BackupFiles` appends. */
  function FileItems(d: Disk, dir: Path, sources: seq<Path>, rels: seq<Path>): (r: seq<Item>)
    requires |rels| == |sources| && forall i :: 0 <= i < |sources| ==> sources[i] in d.files
    ensures |r| == |sources|
  {
    seq(|sources|, i requires 0 <= i < |sources| =>
      FileItem(sources[i], FileDestination(dir, sources[i], rels[i]), |d.files[sources[i]]|))
  }

  /**
   * Sources that exist, appear once, and never coincide with a backup copy,
   * each copy landing at a place of its own.
   */
  predicate SafePlan(d: Disk, dir: Path, sources: seq<Path>, rels: seq<Path>)
  {
    |rels| == |sources|
    && (forall i :: 0 <= i < |sources| ==> sources[i] in d.files)
    && Distinct(sources)
    && Distinct(Destinations(dir, sources, rels))
    && (forall i, j :: 0 <= i < |sources| && 0 <= j < |sources| ==>
          sources[i] != FileDestination(dir, sources[j], rels[j]))
  }

  lemma SafePlanPrefix(d: Disk, dir: Path, sources: seq<Path>, rels: seq<Path>, n: nat)
    requires SafePlan(d, dir, sources, rels) && n <= |sources|
    ensures SafePlan(d, dir, sources[..n], rels[..n])
  {
    assert Destinations(dir, sources[..n], rels[..n]) == Destinations(dir, sources, rels)[..n];
  }

  /** Every copy made holds the content its source had before the run. */
  lemma {:induction false} BackupFilesCopies(d: Disk, dir: Path, sources: seq<Path>, rels: seq<Path>)
    requires SafePlan(d, dir, sources, rels)
    ensures forall i :: 0 <= i < |sources| ==>
      FileDestination(dir, sources[i], rels[i]) in BackupFiles(d, dir, sources, rels).files
      && BackupFiles(d, dir, sources, rels).files[FileDestination(dir, sources[i], rels[i])] == d.files[sources[i]]
    decreases |sources|
  {
    if sources != [] {
      var n := |sources| - 1;
      var s0, r0 := sources[..n], rels[..n];
      SafePlanPrefix(d, dir, sources, rels, n);
      BackupFilesCopies(d, dir, s0, r0);
      LastCopy(d, dir, sources, rels);
      var prev := BackupFiles(d, dir, s0, r0);
      var dest := FileDestination(dir, sources[n], rels[n]);
      forall i | 0 <= i < n
        ensures FileDestination(dir, sources[i], rels[i]) in prev.files
        ensures prev.files[FileDestination(dir, sources[i], rels[i])] == d.files[sources[i]]
        ensures FileDestination(dir, sources[i], rels[i]) != dest
      {
        assert s0[i] == sources[i] && r0[i] == rels[i];
        DestinationsApart(dir, sources, rels, i, n);
      }
    }
  }

  /** The last copy of a safe plan is its source's original content, written over the earlier copies. */
  lemma LastCopy(d: Disk, dir: Path, sources: seq<Path>, rels: seq<Path>)
    requires SafePlan(d, dir, sources, rels) && sources != []
    ensures var n := |sources| - 1;
      var prev := BackupFiles(d, dir, sources[..n], rels[..n]);
      sources[n] in prev.files
      && BackupFiles(d, dir, sources, rels).files
         == prev.files[FileDestination(dir, sources[n], rels[n]) := d.files[sources[n]]]
  {
    var n := |sources| - 1;
    var s0, r0 := sources[..n], rels[..n];
    assert forall j :: 0 <= j < n ==> s0[j] == sources[j] && r0[j] == rels[j];
    BackupFilesKeepsSources(d, dir, s0, r0, sources[n]);
  }

  lemma DestinationsApart(dir: Path, sources: seq<Path>, rels: seq<Path>, i: nat, j: nat)
    requires |rels| == |sources| && Distinct(Destinations(dir, sources, rels))
    requires i < |sources| && j < |sources| && i != j
    ensures FileDestination(dir, sources[i], rels[i]) != FileDestination(dir, sources[j], rels[j])
  {
    var dests := Destinations(dir, sources, rels);
    assert dests[i] != dests[j];
  }

  /** A file that is no copy of the run keeps its content. */
  lemma {:induction false} BackupFilesKeepsSources(d: Disk, dir: Path, sources: seq<Path>, rels: seq<Path>, p: Path)
    requires |rels| == |sources| && p in d.files
    requires forall j :: 0 <= j < |sources| ==> p != FileDestination(dir, sources[j], rels[j])
    ensures p in BackupFiles(d, dir, sources, rels).files && BackupFiles(d, dir, sources, rels).files[p] == d.files[p]
    decreases |sources|
  {
    if sources != [] {
      var n := |sources| - 1;
      BackupFilesKeepsSources(d, dir, sources[..n], rels[..n], p);
    }
  }

  /** The run appends one file item per source, in order. */
  lemma {:induction false} BackupFilesItems(d: Disk, dir: Path, sources: seq<Path>, rels: seq<Path>)
    requires SafePlan(d, dir, sources, rels) && Readable(d, dir)
    ensures Readable(BackupFiles(d, dir, sources, rels), dir)
    ensures Items(BackupFiles(d, dir, sources, rels), dir) == Items(d, dir) + FileItems(d, dir, sources, rels)
    decreases |sources|
  {
    if sources != [] {
      var n := |sources| - 1;
      SafePlanPrefix(d, dir, sources, rels, n);
      BackupFilesItems(d, dir, sources[..n], rels[..n]);
      LastItem(d, dir, sources, rels);
      FileItemsSnoc(d, dir, sources, rels);
    }
  }

  /** The last backup of a safe plan appends its source's item to the manifest. */
  lemma LastItem(d: Disk, dir: Path, sources: seq<Path>, rels: seq<Path>)
    requires SafePlan(d, dir, sources, rels) && sources != []
    requires Readable(BackupFiles(d, dir, sources[..|sources| - 1], rels[..|sources| - 1]), dir)
    ensures var n := |sources| - 1;
      var prev := BackupFiles(d, dir, sources[..n], rels[..n]);
      Readable(BackupFiles(d, dir, sources, rels), dir)
      && Items(BackupFiles(d, dir, sources, rels), dir)
         == Items(prev, dir) + [FileItem(sources[n], FileDestination(dir, sources[n], rels[n]), |d.files[sources[n]]|)]
  {
    var n := |sources| - 1;
    var s0, r0 := sources[..n], rels[..n];
    assert forall j :: 0 <= j < n ==> s0[j] == sources[j] && r0[j] == rels[j];
    BackupFilesKeepsSources(d, dir, s0, r0, sources[n]);
  }

  lemma FileItemsSnoc(d: Disk, dir: Path, sources: seq<Path>, rels: seq<Path>)
    requires |rels| == |sources| > 0 && forall i :: 0 <= i < |sources| ==> sources[i] in d.files
    ensures var n := |sources| - 1;
      FileItems(d, dir, sources, rels) == FileItems(d, dir, sources[..n], rels[..n])
        + [FileItem(sources[n], FileDestination(dir, sources[n], rels[n]), |d.files[sources[n]]|)]
  {
  }

  /**
   * Backing files up into a fresh backup directory, changing anything on
   * disk except the copies and the manifest, then restoring, gives every
   * source its original content back, and the restore reports success when
   * there was something to back up.
   */
  lemma BackupMutateRestore(d: Disk, dir: Path, sources: seq<Path>, rels: seq<Path>, d2: Disk)
    requires SafePlan(d, dir, sources, rels) && Readable(d, dir) && Items(d, dir) == []
    requires Readable(d2, dir) && Items(d2, dir) == Items(BackupFiles(d, dir, sources, rels), dir)
    requires forall i :: 0 <= i < |sources| ==>
      var dest := FileDestination(dir, sources[i], rels[i]);
      dest in d2.files && dest in BackupFiles(d, dir, sources, rels).files
      && d2.files[dest] == BackupFiles(d, dir, sources, rels).files[dest]
    ensures RestoreOutcome(d2, dir).ok <==> |sources| > 0
    ensures forall i :: 0 <= i < |sources| ==>
      sources[i] in RestoreOutcome(d2, dir).disk.files
      && RestoreOutcome(d2, dir).disk.files[sources[i]] == d.files[sources[i]]
  {
    BackupFilesItems(d, dir, sources, rels);
    BackupFilesCopies(d, dir, sources, rels);
    var items := Items(d2, dir);
    assert items == FileItems(d, dir, sources, rels);
    PlanRestorable(d, dir, sources, rels, d2);
    RestoreFileItems(d2, items);
    var res := RestoreItems(d2, items);
    ReadableRestore(d2, dir);
    forall i | 0 <= i < |sources|
      ensures sources[i] in res.disk.files && res.disk.files[sources[i]] == d.files[sources[i]]
    {
      FileItemAt(d, dir, sources, rels, i);
    }
  }

  /** The file items of a safe plan can be restored once their copies are on `d2`. */
  lemma PlanRestorable(d: Disk, dir: Path, sources: seq<Path>, rels: seq<Path>, d2: Disk)
    requires SafePlan(d, dir, sources, rels)
    requires forall i :: 0 <= i < |sources| ==> FileDestination(dir, sources[i], rels[i]) in d2.files
    ensures RestorableFiles(d2, FileItems(d, dir, sources, rels))
  {
    var items := FileItems(d, dir, sources, rels);
    forall i, j | 0 <= i < j < |items|
      ensures items[i].source != items[j].source
    {
      FileItemAt(d, dir, sources, rels, i);
      FileItemAt(d, dir, sources, rels, j);
    }
  }

  lemma FileItemAt(d: Disk, dir: Path, sources: seq<Path>, rels: seq<Path>, i: nat)
    requires |rels| == |sources| && forall k :: 0 <= k < |sources| ==> sources[k] in d.files
    requires i < |sources|
    ensures FileItems(d, dir, sources, rels)[i] ==
            FileItem(sources[i], FileDestination(dir, sources[i], rels[i]), |d.files[sources[i]]|)
  {
  }

  /** A readable backup restores exactly what its manifest's items restore. */
  lemma ReadableRestore(d: Disk, dir: Path)
    requires Readable(d, dir)
    ensures RestoreOutcome(d, dir) ==
            Outcome(RestoreItems(d, Items(d, dir)).count > 0, RestoreItems(d, Items(d, dir)).disk)
  {
  }

  /**
   * `backup_file` without a relative path (and the callers that pass
   * `<category>/<name>`) name the copy after the file alone: two different
   * files with the same name share one copy, and restore writes the second
   * file's content over the first.
   */
  lemma SameNameBackupsCollide(d: Disk, dir: Path, a: Path, b: Path)
    requires a in d.files && b in d.files && a != b && PathName(a) == PathName(b) && d.files[a] != d.files[b]
    requires !StrictlyBelow(a, dir) && !StrictlyBelow(b, dir)
    requires Readable(d, dir) && Items(d, dir) == []
    ensures var backedUp := BackupFiles(d, dir, [a, b], [[], []]);
      RestoreOutcome(backedUp, dir).ok
      && a in RestoreOutcome(backedUp, dir).disk.files
      && RestoreOutcome(backedUp, dir).disk.files[a] == d.files[b] != d.files[a]
  {
    var none: Path := [];
    var dest := FileDestination(dir, a, none);
    var d2 := SameNameBackupState(d, dir, a, b);
    var items := Items(d2, dir);
    RestoreOverOneCopy(d2, items, a, b, dest);
  }

  /** Backing up two same-named files leaves one copy, holding the second file. */
  lemma SameNameBackupState(d: Disk, dir: Path, a: Path, b: Path) returns (d2: Disk)
    requires a in d.files && b in d.files && a != b && PathName(a) == PathName(b)
    requires !StrictlyBelow(a, dir) && !StrictlyBelow(b, dir)
    requires Readable(d, dir) && Items(d, dir) == []
    ensures d2 == BackupFiles(d, dir, [a, b], [[], []])
    ensures var dest := FileDestination(dir, a, []);
      Readable(d2, dir) && dest in d2.files && d2.files[dest] == d.files[b]
      && Items(d2, dir) == [FileItem(a, dest, |d.files[a]|), FileItem(b, dest, |d.files[b]|)]
  {
    var none: Path := [];
    var dest := FileDestination(dir, a, none);
    assert FileDestination(dir, b, none) == dest;
    assert [a, b][..1] == [a] && [none, none][..1] == [none] && [a][..0] == [] && [none][..0] == [];
    assert BackupFiles(d, dir, [a][..0], [none][..0]) == d;
    var d1 := BackupFiles(d, dir, [a], [none]);
    assert d1 == BackupFileOutcome(d, a, dir, none, true).disk;
    d2 := BackupFiles(d, dir, [a, b], [none, none]);
    assert d2 == BackupFileOutcome(d1, b, dir, none, true).disk;
    assert b != dest && b in d1.files && d1.files[b] == d.files[b];
  }

  /** Restoring two file items that share one copy gives both sources that copy. */
  lemma RestoreOverOneCopy(d: Disk, items: seq<Item>, a: Path, b: Path, dest: Path)
    requires dest in d.files && a != dest && b != dest && a != b
    requires |items| == 2 && items[0].FileItem? && items[1].FileItem?
    requires items[0].source == a && items[1].source == b
    requires items[0].destination == dest && items[1].destination == dest
    ensures RestoreItems(d, items).count == 2
    ensures a in RestoreItems(d, items).disk.files && RestoreItems(d, items).disk.files[a] == d.files[dest]
  {
    assert items[..1][..0] == [];
    assert RestoreItems(d, items[..1][..0]) == Restored(0, d);
    var first := RestoreItems(d, items[..1]);
    assert first.disk == RestoreItem(d, items[0]).disk && first.count == 1;
    assert items[..|items| - 1] == items[..1];
  }

  /**
   * The `relative_path` the cleaners pass as written: the file's name below
   * its category (`account_files/<name>`, `database/<name>`,
   * `workspace/<name>`, `config_files/<name>`).
   */
  function NamedRelative(category: string, source: Path): (rel: Path)
    ensures |rel| == 2 && rel[0] == category && rel[1] == PathName(source)
  {
    [category, PathName(source)]
  }

  /** As written, two sources share one copy exactly when they share a file name. */
  lemma NamedDestinationsCollide(dir: Path, category: string, s: Path, t: Path)
    ensures FileDestination(dir, s, NamedRelative(category, s)) == FileDestination(dir, t, NamedRelative(category, t))
            <==> PathName(s) == PathName(t)
    ensures DirectoryDestination(dir, s, NamedRelative(category, s)) == DirectoryDestination(dir, t, NamedRelative(category, t))
            <==> PathName(s) == PathName(t)
  {
    var ds := FileDestination(dir, s, NamedRelative(category, s));
    var dt := FileDestination(dir, t, NamedRelative(category, t));
    if ds == dt {
      assert ds[|dir| + 1] == PathName(s) && dt[|dir| + 1] == PathName(t);
    }
  }

  /** A relative path for the copy that keeps the whole source path below its category. */
  function KeepingRelative(category: string, source: Path): (rel: Path)
    ensures rel != [] && rel[1..] == source
  {
    [category] + source
  }

  function KeepingRelatives(category: string, sources: seq<Path>): (rels: seq<Path>)
    ensures |rels| == |sources| && forall i :: 0 <= i < |sources| ==> rels[i] == KeepingRelative(category, sources[i])
  {
    seq(|sources|, i requires 0 <= i < |sources| => KeepingRelative(category, sources[i]))
  }

  /** Copies named after the whole source path never collide. */
  lemma KeepingDestinationInjective(dir: Path, category: string, s: Path, t: Path)
    ensures FileDestination(dir, s, KeepingRelative(category, s)) == FileDestination(dir, t, KeepingRelative(category, t)) <==> s == t
  {
    var ds := FileDestination(dir, s, KeepingRelative(category, s));
    var dt := FileDestination(dir, t, KeepingRelative(category, t));
    if ds == dt {
      assert ds[|dir| + 1..] == s && dt[|dir| + 1..] == t;
    }
  }

  /**
   * With copies named after the whole source path, backing up any distinct
   * files that live outside the backup directory and restoring gives every
   * one of them its own content back.
   */
  lemma KeepingPathsRoundTrip(d: Disk, dir: Path, category: string, sources: seq<Path>, d2: Disk)
    requires forall i :: 0 <= i < |sources| ==> sources[i] in d.files && !StrictlyBelow(sources[i], dir)
    requires Distinct(sources) && Readable(d, dir) && Items(d, dir) == []
    requires var backedUp := BackupFiles(d, dir, sources, KeepingRelatives(category, sources));
      Readable(d2, dir) && Items(d2, dir) == Items(backedUp, dir)
      && forall i :: 0 <= i < |sources| ==>
        var dest := FileDestination(dir, sources[i], KeepingRelative(category, sources[i]));
        dest in d2.files && dest in backedUp.files && d2.files[dest] == backedUp.files[dest]
    ensures RestoreOutcome(d2, dir).ok <==> |sources| > 0
    ensures forall i :: 0 <= i < |sources| ==>
      sources[i] in RestoreOutcome(d2, dir).disk.files
      && RestoreOutcome(d2, dir).disk.files[sources[i]] == d.files[sources[i]]
  {
    var rels := KeepingRelatives(category, sources);
    var dests := Destinations(dir, sources, rels);
    forall i, j | 0 <= i < j < |dests|
      ensures dests[i] != dests[j]
    {
      KeepingDestinationInjective(dir, category, sources[i], sources[j]);
    }
    forall i, j | 0 <= i < |sources| && 0 <= j < |sources|
      ensures sources[i] != FileDestination(dir, sources[j], rels[j])
    {
      assert StrictlyBelow(FileDestination(dir, sources[j], rels[j]), dir);
    }
    BackupMutateRestore(d, dir, sources, rels, d2);
  }

  // ------------------------------------------------------------- listing

  /** One entry of `list_backups`. */
  datatype BackupInfo = BackupInfo(name: string, path: Path, timestamp: Option<string>,
                                   itemsCount: nat, totalSize: nat)

  /** The entry for one backup directory, read from its manifest when there is a usable one. */
  function InfoFor(d: Disk, p: Path): (r: BackupInfo)
    ensures r.name == PathName(p) && r.path == p
    ensures Readable(d, p) ==>
      (r.timestamp == d.manifests[p].value.timestamp
       && r.itemsCount == |Items(d, p)| && r.totalSize == Sum(ItemSizes(Items(d, p))))
    ensures !Readable(d, p) ==> r.timestamp.None? && r.itemsCount == 0 && r.totalSize == 0
  {
    if Readable(d, p) then
      var m := d.manifests[p].value;
      BackupInfo(PathName(p), p, m.timestamp, |m.items|, Sum(ItemSizes(m.items)))
    else BackupInfo(PathName(p), p, None, 0, 0)
  }

  predicate IsBackupDir(d: Disk, p: Path)
  {
    p in d.dirs && StartsWith(PathName(p), BackupPrefix)
  }

  /** The entries for the backup directories among `listing`, in listing order. */
  function Collect(d: Disk, listing: seq<Path>): (r: seq<BackupInfo>)
    ensures |r| <= |listing|
    ensures forall k :: 0 <= k < |r| ==> IsBackupDir(d, r[k].path) && r[k].path in listing && r[k] == InfoFor(d, r[k].path)
  {
    if listing == [] then []
    else
      var init := Collect(d, listing[..|listing| - 1]);
      var p := listing[|listing| - 1];
      if IsBackupDir(d, p) then init + [InfoFor(d, p)] else init
  }

  /** Every backup directory of the listing has an entry. */
  lemma {:induction false} CollectComplete(d: Disk, listing: seq<Path>, j: nat)
    requires j < |listing| && IsBackupDir(d, listing[j])
    ensures InfoFor(d, listing[j]) in Collect(d, listing)
    decreases |listing|
  {
    if j < |listing| - 1 {
      CollectComplete(d, listing[..|listing| - 1], j);
    }
  }

  /** The sort key `x.get('timestamp', '')`, with a missing timestamp read as the empty text. */
  function SortKey(b: BackupInfo): string
  {
    if b.timestamp.Some? then b.timestamp.value else ""
  }

  predicate NewestFirst(bs: seq<BackupInfo>)
  {
    forall i, j :: 0 <= i < j < |bs| ==> !LexLess(SortKey(bs[i]), SortKey(bs[j]))
  }

  /** Places `x` after every entry whose key is not smaller (the stable reverse order). */
  function Insert(x: BackupInfo, bs: seq<BackupInfo>): (r: seq<BackupInfo>)
    ensures multiset(r) == multiset(bs) + multiset{x}
  {
    if bs == [] then [x]
    else if LexLess(SortKey(bs[0]), SortKey(x)) then [x] + bs
    else
      assert bs == [bs[0]] + bs[1..];
      [bs[0]] + Insert(x, bs[1..])
  }

  lemma {:induction false} InsertNewestFirst(x: BackupInfo, bs: seq<BackupInfo>)
    requires NewestFirst(bs)
    ensures NewestFirst(Insert(x, bs))
    decreases |bs|
  {
    if bs == [] {
    } else if LexLess(SortKey(bs[0]), SortKey(x)) {
      LexLessTotal(SortKey(bs[0]), SortKey(x));
      forall j | 0 <= j < |bs|
        ensures !LexLess(SortKey(x), SortKey(bs[j]))
      {
        if j > 0 && LexLess(SortKey(x), SortKey(bs[j])) {
          LexLessTransitive(SortKey(bs[0]), SortKey(x), SortKey(bs[j]));
        }
      }
      ConsNewestFirst(x, bs);
    } else {
      InsertNewestFirst(x, bs[1..]);
      var rest := Insert(x, bs[1..]);
      forall k | 0 <= k < |rest|
        ensures !LexLess(SortKey(bs[0]), SortKey(rest[k]))
      {
        assert rest[k] in multiset(rest);
        if rest[k] != x {
          assert rest[k] in multiset(bs[1..]);
          var j :| 0 <= j < |bs[1..]| && bs[1..][j] == rest[k];
          assert bs[j + 1] == rest[k];
        }
      }
      ConsNewestFirst(bs[0], rest);
    }
  }

  /** An entry whose key is not below any key of a sorted list may head it. */
  lemma ConsNewestFirst(h: BackupInfo, rest: seq<BackupInfo>)
    requires NewestFirst(rest)
    requires forall k :: 0 <= k < |rest| ==> !LexLess(SortKey(h), SortKey(rest[k]))
    ensures NewestFirst([h] + rest)
  {
    var r := [h] + rest;
    forall i, j | 0 <= i < j < |r|
      ensures !LexLess(SortKey(r[i]), SortKey(r[j]))
    {
      assert r[j] == rest[j - 1];
      if i > 0 {
        assert r[i] == rest[i - 1];
      }
    }
  }

  /** `backups.sort(key=..., reverse=True)`, by insertion. */
  function SortNewestFirst(bs: seq<BackupInfo>): (r: seq<BackupInfo>)
    ensures multiset(r) == multiset(bs)
    ensures NewestFirst(r)
  {
    if bs == [] then []
    else
      assert bs == bs[..|bs| - 1] + [bs[|bs| - 1]];
      InsertNewestFirst(bs[|bs| - 1], SortNewestFirst(bs[..|bs| - 1]));
      Insert(bs[|bs| - 1], SortNewestFirst(bs[..|bs| - 1]))
  }

  /**
   * `list_backups` as written: Python refuses to order `None` against text,
   * so as soon as two entries are sorted and one has no timestamp the call
   * raises `TypeError`.
   */
  function ListBackupsAsWritten(d: Disk, root: Path, listing: seq<Path>): (r: Result<seq<BackupInfo>>)
  {
    if !Exists(d, root) then Ok([])
    else
      var found := Collect(d, listing);
      if |found| >= 2 && exists k :: 0 <= k < |found| && found[k].timestamp.None? then Err("TypeError")
      else Ok(SortNewestFirst(found))
  }

  /**
   * `list_backups` as intended: every backup directory of the root once, a
   * missing timestamp sorting as the empty text, newest first.
   */
  function BackupListing(d: Disk, root: Path, listing: seq<Path>): (r: seq<BackupInfo>)
    ensures !Exists(d, root) ==> r == []
    ensures Exists(d, root) ==> multiset(r) == multiset(Collect(d, listing))
    ensures NewestFirst(r)
  {
    if !Exists(d, root) then [] else SortNewestFirst(Collect(d, listing))
  }

  /** The correction only changes the calls that raised. */
  lemma ListBackupsAgrees(d: Disk, root: Path, listing: seq<Path>)
    ensures ListBackupsAsWritten(d, root, listing).Ok? ==> ListBackupsAsWritten(d, root, listing).value == BackupListing(d, root, listing)
  {
  }

  /** `p` is an entry directly inside `root`. */
  predicate ChildOf(p: Path, root: Path)
  {
    p != [] && Parent(p) == root
  }

  /** What `root.iterdir()` yields: every entry directly inside `root`, each once, in some order. */
  ghost predicate IsListingOf(d: Disk, root: Path, listing: seq<Path>)
  {
    (forall i, j :: 0 <= i < j < |listing| ==> listing[i] != listing[j])
    && (forall p :: p in listing <==> ChildOf(p, root) && Exists(d, p))
  }

  /** One more listed path adds its entry when it is a backup directory. */
  lemma CollectSnoc(d: Disk, listing: seq<Path>)
    requires listing != []
    ensures Collect(d, listing) == Collect(d, listing[..|listing| - 1])
      + (if IsBackupDir(d, listing[|listing| - 1]) then [InfoFor(d, listing[|listing| - 1])] else [])
  {
  }

  /** Appending `y` adds one to the count of `y` and leaves every other count alone. */
  lemma MultisetSnocCount<T>(c: seq<T>, y: T, x: T)
    ensures multiset(c + [y])[x] == multiset(c)[x] + (if x == y then 1 else 0)
  {
    assert multiset(c + [y]) == multiset(c) + multiset{y};
  }

  /** Over a listing without repeats, each backup directory of it is collected exactly once. */
  lemma {:induction false} CollectCount(d: Disk, listing: seq<Path>, p: Path)
    requires forall i, j :: 0 <= i < j < |listing| ==> listing[i] != listing[j]
    ensures multiset(Collect(d, listing))[InfoFor(d, p)] == if IsBackupDir(d, p) && p in listing then 1 else 0
    decreases |listing|
  {
    if listing != [] {
      var n := |listing| - 1;
      var init := listing[..n];
      var last := listing[n];
      NoRepeatsInit(listing, p);
      CollectCount(d, init, p);
      CollectSnoc(d, listing);
      if IsBackupDir(d, last) {
        MultisetSnocCount(Collect(d, init), InfoFor(d, last), InfoFor(d, p));
      }
    }
  }

  /** A listing without repeats: all but its last path have none either, and hold a path only if it is not the last. */
  lemma NoRepeatsInit(listing: seq<Path>, p: Path)
    requires listing != [] && forall i, j :: 0 <= i < j < |listing| ==> listing[i] != listing[j]
    ensures var init := listing[..|listing| - 1];
      && (forall i, j :: 0 <= i < j < |init| ==> init[i] != init[j])
      && (p in listing <==> p in init || p == listing[|listing| - 1])
      && (p in init ==> p != listing[|listing| - 1])
  {
    var n := |listing| - 1;
    assert listing == listing[..n] + [listing[n]];
  }

  /**
   * Over the root's real listing, the result holds every backup directory
   * directly inside the root exactly once, each with its own entry, and
   * nothing else.
   */
  lemma ListedIffBackupDir(d: Disk, root: Path, listing: seq<Path>, p: Path)
    requires Exists(d, root) && IsListingOf(d, root, listing)
    ensures multiset(BackupListing(d, root, listing))[InfoFor(d, p)] == if IsBackupDir(d, p) && ChildOf(p, root) then 1 else 0
    ensures forall b :: b in BackupListing(d, root, listing) ==> IsBackupDir(d, b.path) && ChildOf(b.path, root) && b == InfoFor(d, b.path)
  {
    var r := BackupListing(d, root, listing);
    CollectCount(d, listing, p);
    forall b | b in r
      ensures IsBackupDir(d, b.path) && ChildOf(b.path, root) && b == InfoFor(d, b.path)
    {
      assert b in multiset(Collect(d, listing));
      assert b.path in listing;
    }
  }

  /** A backup directory that lost its manifest next to any other backup breaks the listing. */
  lemma MissingManifestBreaksListing()
    ensures
      var root: Path := ["home"];
      var a: Path := ["home", "Backup_20240101_000000"];
      var b: Path := ["home", "Backup_20240102_000000"];
      var d := Disk(map[], {root, a, b}, map[a := Some(Manifest(Some("2024-01-01T00:00:00"), BackupKind, []))]);
      ListBackupsAsWritten(d, root, [a, b]) == Err("TypeError")
      && |BackupListing(d, root, [a, b])| == 2
  {
    var root: Path := ["home"];
    var a: Path := ["home", "Backup_20240101_000000"];
    var b: Path := ["home", "Backup_20240102_000000"];
    var d := Disk(map[], {root, a, b}, map[a := Some(Manifest(Some("2024-01-01T00:00:00"), BackupKind, []))]);
    assert StartsWith(PathName(a), BackupPrefix) && StartsWith(PathName(b), BackupPrefix);
    assert [a, b][..1] == [a];
    assert Collect(d, [a]) == [InfoFor(d, a)] by {
      assert [a][..0] == [];
    }
    var found := Collect(d, [a, b]);
    assert found == [InfoFor(d, a), InfoFor(d, b)];
    assert found[1].timestamp.None?;
    assert |multiset(BackupListing(d, root, [a, b]))| == 2;
  }

  // ------------------------------------------------------------- deletion

  /**
   * `delete_backup`: `shutil.rmtree(dir)`, which raises unless `dir` is a
   * directory; `rmOk` says whether the removal itself goes through.  On
   * success the directory, everything below it and the manifests kept
   * there are gone, and nothing else changes.
   */
  function DeleteBackupOutcome(d: Disk, dir: Path, rmOk: bool): (r: Outcome)
    ensures r.ok <==> dir in d.dirs && rmOk
    ensures !r.ok ==> r.disk == d
    ensures r.ok ==> !Exists(r.disk, dir) && !Readable(r.disk, dir)
    ensures r.ok ==> forall p :: p in r.disk.files ==> !AtOrBelow(p, dir)
    ensures r.ok ==> forall p :: p in d.files && !AtOrBelow(p, dir) ==> p in r.disk.files && r.disk.files[p] == d.files[p]
    ensures r.ok ==> forall p :: p in d.dirs && !AtOrBelow(p, dir) ==> p in r.disk.dirs
    ensures r.ok ==> forall p :: p in d.manifests && !AtOrBelow(p, dir) ==> p in r.disk.manifests && r.disk.manifests[p] == d.manifests[p]
  {
    if dir in d.dirs && rmOk then
      var t := RemoveTree(d, dir);
      Outcome(true, t.(manifests := map q | q in d.manifests && !AtOrBelow(q, dir) :: d.manifests[q]))
    else Outcome(false, d)
  }

  /**
   * After a backup directory is deleted, the listing of its root no longer
   * shows it, and still shows every other backup directory there with the
   * entry it had.
   */
  lemma DeletedBackupNotListed(d: Disk, root: Path, dir: Path, rmOk: bool, listing: seq<Path>, p: Path)
    requires ChildOf(dir, root) && root in d.dirs
    requires DeleteBackupOutcome(d, dir, rmOk).ok && IsListingOf(DeleteBackupOutcome(d, dir, rmOk).disk, root, listing)
    ensures var after := DeleteBackupOutcome(d, dir, rmOk).disk;
      multiset(BackupListing(after, root, listing))[InfoFor(after, dir)] == 0
    ensures var after := DeleteBackupOutcome(d, dir, rmOk).disk;
      p != dir && IsBackupDir(d, p) && ChildOf(p, root) ==> multiset(BackupListing(after, root, listing))[InfoFor(d, p)] == 1
  {
    var after := DeleteBackupOutcome(d, dir, rmOk).disk;
    assert !AtOrBelow(root, dir);
    assert Exists(after, root);
    ListedIffBackupDir(after, root, listing, dir);
    if p != dir && IsBackupDir(d, p) && ChildOf(p, root) {
      assert |p| == |dir| && !AtOrBelow(p, dir);
      assert InfoFor(after, p) == InfoFor(d, p);
      ListedIffBackupDir(after, root, listing, p);
    }
  }

  // -------------------------------------------------------- the manager

  /** `BackupManager(backup_root)`: the root given, else `FreeAugmentCode_Backups` in the home (its `Documents` on Windows). */
  function RootFor(given: Option<Path>, home: Path, isWindows: bool): (r: Path)
    ensures given.Some? ==> r == given.value
    ensures given.None? ==>
      (PathName(r) == DefaultRootName && Parent(r) == (if isWindows then home + ["Documents"] else home))
  {
    if given.Some? then given.value
    else (if isWindows then home + ["Documents"] else home) + [DefaultRootName]
  }

  /** The backup manager over the disk it reads and writes. */
  class BackupManager {
    const backupRoot: Path
    var disk: Disk

    constructor (given: Option<Path>, home: Path, isWindows: bool, d: Disk)
      ensures backupRoot == RootFor(given, home, isWindows)
      ensures disk == MakeDirs(d, backupRoot) && (backupRoot != [] ==> backupRoot in disk.dirs)
    {
      var root := RootFor(given, home, isWindows);
      assert root == root[..|root|];
      backupRoot := root;
      disk := MakeDirs(d, root);
    }

    method CreateTimestampedBackupDir(dirTime: DateTime, stampTime: DateTime, writeOk: bool) returns (dir: Path)
      requires ValidDateTime(dirTime) && ValidDateTime(stampTime)
      modifies this
      ensures dir == BackupDirFor(backupRoot, dirTime)
      ensures disk == CreateBackupDir(old(disk), backupRoot, dirTime, stampTime, writeOk)
    {
      dir := BackupDirFor(backupRoot, dirTime);
      disk := MakeDirs(disk, dir);
      if writeOk {
        disk := disk.(manifests := disk.manifests[dir := Some(Manifest(Some(IsoFormat(stampTime)), BackupKind, []))]);
      }
    }

    /** `_update_manifest`. */
    method RecordItem(dir: Path, item: Item)
      modifies this
      ensures disk == UpdateManifest(old(disk), dir, item)
    {
      if dir in disk.manifests {
        var manifest := disk.manifests[dir];
        if manifest.Some? {
          var m := manifest.value;
          disk := disk.(manifests := disk.manifests[dir := Some(m.(items := m.items + [item]))]);
        }
      }
    }

    method BackupFile(source: Path, dir: Path, relative: Path, copyOk: bool) returns (ok: bool)
      modifies this
      ensures Outcome(ok, disk) == BackupFileOutcome(old(disk), source, dir, relative, copyOk)
    {
      if !Exists(disk, source) {
        return false;
      }
      var dest := if relative != [] then dir + relative else dir + ["files", PathName(source)];
      disk := MakeDirs(disk, Parent(dest));
      if !copyOk || source !in disk.files {
        return false;
      }
      var content := disk.files[source];
      disk := disk.(files := disk.files[dest := content]);
      RecordItem(dir, FileItem(source, dest, |content|));
      ok := true;
    }

    /** The summed sizes of the files below `src`, taken one at a time. */
    method DirectorySize(src: Path) returns (total: nat)
      ensures total == TreeSize(disk, src)
    {
      var left := FilesBelow(disk, src);
      total := 0;
      while left != {}
        invariant left <= FilesBelow(disk, src)
        invariant total + SizeOf(disk.files, left) == TreeSize(disk, src)
        decreases left
      {
        var p :| p in left;
        SizeOfRemove(disk.files, left, p);
        total := total + |disk.files[p]|;
        left := left - {p};
      }
    }

    method BackupDirectory(source: Path, dir: Path, relative: Path, copyOk: bool) returns (ok: bool)
      modifies this
      ensures Outcome(ok, disk) == BackupDirectoryOutcome(old(disk), source, dir, relative, copyOk)
    {
      if !Exists(disk, source) {
        return false;
      }
      var dest := if relative != [] then dir + relative else dir + ["directories", PathName(source)];
      if !copyOk || source !in disk.dirs {
        return false;
      }
      disk := CopyTree(disk, source, dest);
      var size := DirectorySize(source);
      RecordItem(dir, DirectoryItem(source, dest, size));
      ok := true;
    }

    method BackupRegistryKey(dir: Path, keyPath: string, record: string, isWindows: bool, writeOk: bool)
      returns (ok: bool)
      modifies this
      ensures Outcome(ok, disk) == BackupRegistryOutcome(old(disk), dir, keyPath, record, isWindows, writeOk)
    {
      if !isWindows {
        return false;
      }
      disk := MakeDirs(disk, dir + ["registry"]);
      var file := dir + ["registry", SafeKeyName(keyPath) + ".json"];
      if !writeOk {
        return false;
      }
      disk := disk.(files := disk.files[file := record]);
      RecordItem(dir, RegistryItem(keyPath, file));
      ok := true;
    }

    /** `list_backups`, with a missing timestamp sorting as the empty text. */
    method ListBackups(listing: seq<Path>) returns (backups: seq<BackupInfo>)
      requires IsListingOf(disk, backupRoot, listing)
      ensures backups == BackupListing(disk, backupRoot, listing)
    {
      if !Exists(disk, backupRoot) {
        return [];
      }
      backups := [];
      var i := 0;
      while i < |listing|
        invariant 0 <= i <= |listing|
        invariant backups == Collect(disk, listing[..i])
      {
        var p := listing[i];
        TakeTake(listing, i + 1, i);
        if p in disk.dirs && StartsWith(PathName(p), BackupPrefix) {
          backups := backups + [InfoFor(disk, p)];
        }
        i := i + 1;
      }
      assert listing[..i] == listing;
      backups := SortNewestFirst(backups);
    }

    /** `delete_backup`. */
    method DeleteBackup(dir: Path, rmOk: bool) returns (ok: bool)
      modifies this
      ensures Outcome(ok, disk) == DeleteBackupOutcome(old(disk), dir, rmOk)
    {
      if dir !in disk.dirs || !rmOk {
        return false;
      }
      disk := RemoveTree(disk, dir);
      disk := disk.(manifests := map q | q in disk.manifests && !AtOrBelow(q, dir) :: disk.manifests[q]);
      ok := true;
    }

    /** One pass of the restore loop. */
    method RestoreOne(item: Item) returns (restored: bool)
      modifies this
      ensures Outcome(restored, disk) == RestoreItem(old(disk), item)
    {
      match item
      case FileItem(source, destination, _) =>
        if !Exists(disk, destination) {
          return false;
        }
        var content := if destination in disk.files then disk.files[destination] else "";
        var isFile := destination in disk.files;
        disk := MakeDirs(disk, Parent(source));
        if !isFile {
          return false;
        }
        disk := disk.(files := disk.files[source := content]);
        restored := true;
      case DirectoryItem(source, destination, _) =>
        if !Exists(disk, destination) || source in disk.files {
          return false;
        }
        var isDir := destination in disk.dirs;
        if source in disk.dirs {
          disk := RemoveTree(disk, source);
        }
        if !isDir {
          return false;
        }
        disk := CopyTree(disk, destination, source);
        restored := true;
      case RegistryItem(_, _) =>
        restored := false;
    }

    method RestoreFromBackup(dir: Path) returns (ok: bool)
      modifies this
      ensures Outcome(ok, disk) == RestoreOutcome(old(disk), dir)
    {
      if dir !in disk.manifests || disk.manifests[dir].None? {
        return false;
      }
      var items := disk.manifests[dir].value.items;
      ghost var start := disk;
      var successCount: nat := 0;
      var i := 0;
      while i < |items|
        invariant 0 <= i <= |items|
        invariant Restored(successCount, disk) == RestoreItems(start, items[..i])
      {
        TakeTake(items, i + 1, i);
        var restored := RestoreOne(items[i]);
        if restored {
          successCount := successCount + 1;
        }
        i := i + 1;
      }
      assert items[..i] == items;
      ok := successCount > 0;
    }
  }
}
