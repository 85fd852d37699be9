/**
 * workspace_cleaner.py: workspace directories, what in them can be cleaned,
 * the selective clean, and the discovery report.
 *
 * A workspace is analysed from a directory snapshot (`Utils.Node`); the
 * clean acts on the flat file store (`Backup.Disk`) the backup manager owns.
 */
module Workspace {
  import opened Common
  import opened Utils
  import opened Backup
  import Config

  // ------------------------------------------------------- path-like values

  const PathIndicators: seq<string> := ["/", "\\", ":", "C:", "D:", "/home", "/Users", "Documents", "AppData"]

  /** `_looks_like_path`. */
  predicate LooksLikePath(value: string)
  {
    |value| >= 3 && ContainsAny(value, PathIndicators)
  }

  /**
   * The drive and home indicators add nothing: a value of three characters
   * or more looks like a path iff it holds a slash, a backslash, a colon,
   * `Documents` or `AppData`.
   */
  lemma LooksLikePathRule(value: string)
    ensures LooksLikePath(value) <==>
      (|value| >= 3
       && (Contains(value, "/") || Contains(value, "\\") || Contains(value, ":")
           || Contains(value, "Documents") || Contains(value, "AppData")))
  {
    var p := PathIndicators;
    assert p[0] == "/" && p[1] == "\\" && p[2] == ":" && p[7] == "Documents" && p[8] == "AppData";
    if ContainsAny(value, p) {
      var k :| 0 <= k < |p| && Contains(value, p[k]);
      if k == 3 || k == 4 {
        assert OccursAt(p[k], ":", 1);
        ContainsTrans(value, p[k], ":");
      } else if k == 5 || k == 6 {
        assert OccursAt(p[k], "/", 0);
        ContainsTrans(value, p[k], "/");
      }
    }
  }

  const PathKeywords: seq<string> := ["workspace", "project", "directory", "path", "folder"]

  /** The key test of `_extract_paths_from_json`. */
  predicate IsPathKey(key: string)
  {
    ContainsAny(Lower(key), PathKeywords)
  }

  /** `_extract_paths_from_json` (the dotted location it threads through is never used). */
  function ExtractPaths(v: Config.Json): seq<string>
    decreases v, 1
  {
    if v.JObj? then ExtractFromFields(v.fields)
    else if v.JArr? then ExtractFromItems(v.items)
    else []
  }

  function ExtractFromFields(fields: seq<Config.Field>): seq<string>
    decreases fields, 0
  {
    if fields == [] then []
    else
      var f := fields[0];
      (if f.value.JStr? && LooksLikePath(f.value.s) then (if IsPathKey(f.key) then [f.value.s] else [])
       else if f.value.JObj? || f.value.JArr? then ExtractPaths(f.value)
       else [])
      + ExtractFromFields(fields[1..])
  }

  function ExtractFromItems(items: seq<Config.Json>): seq<string>
    decreases items, 0
  {
    if items == [] then []
    else (if items[0].JObj? || items[0].JArr? then ExtractPaths(items[0]) else []) + ExtractFromItems(items[1..])
  }

  /** A dictionary entry whose key names a location and whose string value looks like a path. */
  predicate IsPathEntry(e: Config.Entry)
  {
    e.value.JStr? && LooksLikePath(e.value.s) && IsPathKey(e.key)
  }

  /** The values of the path entries, in order. */
  function PathValues(es: seq<Config.Entry>): (r: seq<string>)
    ensures forall s :: s in r <==> exists k :: 0 <= k < |es| && IsPathEntry(es[k]) && es[k].value.s == s
  {
    if es == [] then []
    else
      var rest := PathValues(es[1..]);
      assert forall k :: 1 <= k < |es| ==> es[k] == es[1..][k - 1];
      (if IsPathEntry(es[0]) then [es[0].value.s] else []) + rest
  }

  lemma {:induction false} PathValuesAppend(a: seq<Config.Entry>, b: seq<Config.Entry>)
    ensures PathValues(a + b) == PathValues(a) + PathValues(b)
    decreases |a|
  {
    if a == [] {
      assert a + b == b;
    } else {
      assert (a + b)[0] == a[0];
      assert (a + b)[1..] == a[1..] + b;
      PathValuesAppend(a[1..], b);
    }
  }

  /**
   * The extraction returns exactly the path entries of the document at any
   * depth below dictionaries and lists, in document order; a string that is
   * a list element is never an entry, so it is never returned.
   */
  lemma {:induction false} ExtractPathsAreEntries(v: Config.Json, path: string)
    ensures ExtractPaths(v) == PathValues(Config.Entries(v, path))
    decreases v, 1
  {
    if v.JObj? {
      ExtractFieldsAreEntries(v.fields, path);
    } else if v.JArr? {
      ExtractItemsAreEntries(v.items, path, 0);
    }
  }

  lemma {:induction false} ExtractFieldsAreEntries(fields: seq<Config.Field>, path: string)
    ensures ExtractFromFields(fields) == PathValues(Config.FieldEntries(fields, path))
    decreases fields, 0
  {
    if fields != [] {
      var f := fields[0];
      var cur := Config.ChildPath(path, f.key);
      var head := [Config.Entry(cur, f.key, f.value)];
      var below := Config.Entries(f.value, cur);
      ExtractPathsAreEntries(f.value, cur);
      ExtractFieldsAreEntries(fields[1..], path);
      PathValuesAppend(head + below, Config.FieldEntries(fields[1..], path));
      PathValuesAppend(head, below);
      if !f.value.JObj? && !f.value.JArr? {
        assert below == [];
      }
    }
  }

  lemma {:induction false} ExtractItemsAreEntries(items: seq<Config.Json>, path: string, i: nat)
    ensures ExtractFromItems(items) == PathValues(Config.ItemEntries(items, path, i))
    decreases items, 0
  {
    if items != [] {
      var here := Config.ItemPath(path, i);
      ExtractPathsAreEntries(items[0], here);
      ExtractItemsAreEntries(items[1..], path, i + 1);
      PathValuesAppend(Config.Entries(items[0], here), Config.ItemEntries(items[1..], path, i + 1));
    }
  }

  /** Every extracted value looks like a path and sits under a location key of the document. */
  lemma ExtractedPathsSound(v: Config.Json, s: string)
    requires s in ExtractPaths(v)
    ensures LooksLikePath(s)
    ensures exists e :: e in Config.Entries(v, "") && IsPathKey(e.key) && e.value == Config.JStr(s)
  {
    ExtractPathsAreEntries(v, "");
    var es := Config.Entries(v, "");
    var k :| 0 <= k < |es| && IsPathEntry(es[k]) && es[k].value.s == s;
    assert es[k] in es;
  }

  /** A list of plain strings (or other scalars) yields nothing, whatever they look like. */
  lemma {:induction false} BareListStringsIgnored(items: seq<Config.Json>)
    requires forall k :: 0 <= k < |items| ==> !items[k].JObj? && !items[k].JArr?
    ensures ExtractPaths(Config.JArr(items)) == []
    decreases |items|
  {
    if items != [] {
      BareListStringsIgnored(items[1..]);
    }
  }

  // -------------------------------------------------- workspace descriptors

  /** The kinds of cleanable item, with the `type` strings the options select by. */
  datatype Kind = CacheFolder | TempFile | SessionFile

  function KindName(k: Kind): string
  {
    match k
    case CacheFolder => "cache_folder"
    case TempFile => "temp_file"
    case SessionFile => "session_file"
  }

  datatype Risk = Low | Medium

  /** One entry of `cleanable_items`. */
  datatype Cleanable = Cleanable(kind: Kind, path: Path, description: string, risk: Risk, sizeEstimate: nat)

  /** The dictionary `_analyze_workspace_directory` returns. */
  datatype WorkspaceInfo = WorkspaceInfo(
    path: Path, name: string, totalSize: nat, fileCount: nat, cleanable: seq<Cleanable>,
    projectFolders: seq<Path>, cacheFolders: seq<Path>, tempFiles: seq<Path>, sessionFiles: seq<Path>)

  // --------------------------------------------------------- de-duplication

  function PathsOf(ws: seq<WorkspaceInfo>): (r: seq<Path>)
    ensures |r| == |ws| && forall i :: 0 <= i < |ws| ==> r[i] == ws[i].path
  {
    seq(|ws|, i requires 0 <= i < |ws| => ws[i].path)
  }

  /** The duplicate removal at the end of `discover_workspace_locations`. */
  function UniqueByPath(ws: seq<WorkspaceInfo>): (r: seq<WorkspaceInfo>)
    ensures |r| <= |ws|
  {
    if ws == [] then []
    else
      var u := UniqueByPath(ws[..|ws| - 1]);
      var w := ws[|ws| - 1];
      if w.path in PathsOf(u) then u else u + [w]
  }

  /** The position of the first descriptor with path `p`. */
  function FirstIndex(ws: seq<WorkspaceInfo>, p: Path): (r: nat)
    requires p in PathsOf(ws)
    ensures r < |ws| && ws[r].path == p
    ensures forall k :: 0 <= k < r ==> ws[k].path != p
  {
    if ws[0].path == p then 0
    else
      assert p in PathsOf(ws[1..]) by {
        var j :| 0 <= j < |ws| && ws[j].path == p;
        assert ws[1..][j - 1].path == p;
      }
      1 + FirstIndex(ws[1..], p)
  }

  /** The first index in a prefix is the first index in the whole. */
  lemma FirstIndexPrefix(ws: seq<WorkspaceInfo>, n: nat, p: Path)
    requires n <= |ws| && p in PathsOf(ws[..n])
    ensures p in PathsOf(ws) && FirstIndex(ws[..n], p) == FirstIndex(ws, p)
  {
    var a := FirstIndex(ws[..n], p);
    assert ws[a].path == p;
    forall k | 0 <= k < a ensures ws[k].path != p {
      assert ws[..n][k] == ws[k];
    }
  }

  lemma PathsOfPrefix(ws: seq<WorkspaceInfo>, n: nat, p: Path)
    requires n <= |ws| && p in PathsOf(ws[..n])
    ensures p in PathsOf(ws)
  {
    var j :| 0 <= j < n && ws[..n][j].path == p;
    assert ws[j].path == p;
  }

  /** The kept descriptors have distinct paths, and every path seen is kept. */
  lemma {:induction false} UniqueByPathCovers(ws: seq<WorkspaceInfo>)
    ensures var r := UniqueByPath(ws);
      Distinct(PathsOf(r)) && forall p :: p in PathsOf(r) <==> p in PathsOf(ws)
    decreases |ws|
  {
    if ws != [] {
      var n := |ws| - 1;
      var init := ws[..n];
      var u := UniqueByPath(init);
      var w := ws[n];
      UniqueByPathCovers(init);
      assert PathsOf(ws) == PathsOf(init) + [w.path];
      if w.path !in PathsOf(u) {
        assert PathsOf(u + [w]) == PathsOf(u) + [w.path];
      }
    }
  }

  /**
   * Each kept descriptor is the first one with its path, and the kept
   * descriptors keep their original relative order.
   */
  lemma UniqueByPathFirsts(ws: seq<WorkspaceInfo>)
    ensures var r := UniqueByPath(ws);
      (forall i :: 0 <= i < |r| ==> r[i].path in PathsOf(ws) && r[i] == ws[FirstIndex(ws, r[i].path)])
      && (forall i, j :: 0 <= i < j < |r| ==> FirstIndex(ws, r[i].path) < FirstIndex(ws, r[j].path))
  {
    UniqueByPathFirstOf(ws);
    UniqueByPathInOrder(ws);
  }

  /** The paths kept before the last descriptor keep their first positions when it is added. */
  lemma UniqueByPathStep(ws: seq<WorkspaceInfo>)
    requires ws != []
    ensures var n := |ws| - 1; var u := UniqueByPath(ws[..n]); var w := ws[n];
      && (forall i :: 0 <= i < |u| ==>
            u[i].path in PathsOf(ws[..n]) && u[i].path in PathsOf(ws)
            && FirstIndex(ws[..n], u[i].path) == FirstIndex(ws, u[i].path))
      && UniqueByPath(ws) == (if w.path in PathsOf(u) then u else u + [w])
      && (w.path !in PathsOf(u) ==> w.path in PathsOf(ws) && FirstIndex(ws, w.path) == n)
  {
    var n := |ws| - 1;
    var init := ws[..n];
    var u := UniqueByPath(init);
    var w := ws[n];
    UniqueByPathCovers(init);
    forall i | 0 <= i < |u|
      ensures u[i].path in PathsOf(init) && u[i].path in PathsOf(ws)
      ensures FirstIndex(init, u[i].path) == FirstIndex(ws, u[i].path)
    {
      assert PathsOf(u)[i] == u[i].path;
      FirstIndexPrefix(ws, n, u[i].path);
    }
    if w.path !in PathsOf(u) {
      assert w.path !in PathsOf(init);
      assert PathsOf(ws)[n] == w.path;
      forall k | 0 <= k < n ensures ws[k].path != w.path {
        assert PathsOf(init)[k] == ws[k].path;
      }
    }
  }

  lemma {:induction false} UniqueByPathFirstOf(ws: seq<WorkspaceInfo>)
    ensures var r := UniqueByPath(ws);
      forall i :: 0 <= i < |r| ==> r[i].path in PathsOf(ws) && r[i] == ws[FirstIndex(ws, r[i].path)]
    decreases |ws|
  {
    if ws != [] {
      var n := |ws| - 1;
      var init := ws[..n];
      UniqueByPathFirstOf(init);
      UniqueByPathStep(ws);
      var u := UniqueByPath(init);
      forall i | 0 <= i < |u| ensures u[i] == ws[FirstIndex(ws, u[i].path)] {
        assert init[FirstIndex(init, u[i].path)] == ws[FirstIndex(init, u[i].path)];
      }
    }
  }

  lemma {:induction false} UniqueByPathInOrder(ws: seq<WorkspaceInfo>)
    ensures var r := UniqueByPath(ws);
      forall i, j :: 0 <= i < j < |r| ==>
        r[i].path in PathsOf(ws) && r[j].path in PathsOf(ws) && FirstIndex(ws, r[i].path) < FirstIndex(ws, r[j].path)
    decreases |ws|
  {
    if ws != [] {
      var n := |ws| - 1;
      var init := ws[..n];
      UniqueByPathInOrder(init);
      UniqueByPathFirstOf(init);
      UniqueByPathStep(ws);
      var u := UniqueByPath(init);
      var w := ws[n];
      if w.path !in PathsOf(u) {
        var r := u + [w];
        forall i, j | 0 <= i < j < |r|
          ensures r[i].path in PathsOf(ws) && r[j].path in PathsOf(ws)
          ensures FirstIndex(ws, r[i].path) < FirstIndex(ws, r[j].path)
        {
          if j == |u| {
            assert r[i] == u[i] && FirstIndex(init, u[i].path) < n;
          } else {
            assert r[i] == u[i] && r[j] == u[j];
          }
        }
      }
    }
  }

  // ---------------------------------------------------------- categorising

  const TempSuffixes: seq<string> := [".tmp", ".temp", ".bak", ".backup"]
  const SessionSuffixes: seq<string> := [".session", ".cache", ".lock"]

  /** The temporary-file test of `_categorize_workspace_item`. */
  predicate IsTempFile(name: string)
  {
    var n := Lower(name);
    StartsWith(n, "tmp") || StartsWith(n, "temp") || Lower(Suffix(name)) in TempSuffixes
  }

  /** The session-file test of `_categorize_workspace_item`. */
  predicate IsSessionFile(name: string)
  {
    var n := Lower(name);
    Contains(n, "session") || Contains(n, "cache") || Lower(Suffix(name)) in SessionSuffixes
  }

  /** The suffix tests read as "the lowercased name ends in one of them, after at least one character". */
  lemma FileSuffixRule(name: string)
    ensures Lower(Suffix(name)) in TempSuffixes <==> HasExtension(name, TempSuffixes)
    ensures Lower(Suffix(name)) in SessionSuffixes <==> HasExtension(name, SessionSuffixes)
  {
    assert AreExtensions(TempSuffixes);
    assert AreExtensions(SessionSuffixes);
    SuffixInIffExtension(name, TempSuffixes);
    SuffixInIffExtension(name, SessionSuffixes);
  }

  const CacheWords: seq<string> := ["cache", "tmp", "temp", ".cache", "__pycache__"]

  /** The cache-directory test of `_categorize_workspace_directory`. */
  predicate IsCacheDir(name: string)
  {
    ContainsAny(Lower(name), CacheWords)
  }

  /** `.cache` and `__pycache__` are covered by `cache`: three words decide. */
  lemma CacheDirRule(name: string)
    ensures IsCacheDir(name) <==>
      (Contains(Lower(name), "cache") || Contains(Lower(name), "tmp") || Contains(Lower(name), "temp"))
  {
    var n := Lower(name);
    var w := CacheWords;
    assert w[0] == "cache" && w[1] == "tmp" && w[2] == "temp";
    if ContainsAny(n, w) {
      var k :| 0 <= k < |w| && Contains(n, w[k]);
      if k == 3 {
        assert OccursAt(w[3], "cache", 1);
        ContainsTrans(n, w[3], "cache");
      } else if k == 4 {
        assert OccursAt(w[4], "cache", 4);
        ContainsTrans(n, w[4], "cache");
      }
    }
  }

  const ProjectIndicators: seq<string> := [
    ".git", ".gitignore", "package.json", "requirements.txt", "Cargo.toml", "pom.xml",
    "build.gradle", "Makefile", "README.md", "README.txt", ".project", ".vscode"]

  /**
   * `_looks_like_project_directory`: a listable directory with an entry whose
   * name (compared exactly) is a project indicator.
   */
  predicate LooksLikeProject(n: Node)
  {
    n.Dir? && n.readable && exists k :: 0 <= k < |n.children| && n.children[k].name in ProjectIndicators
  }

  /** The lists `_analyze_workspace_directory` fills while it walks. */
  datatype Tally = Tally(
    fileCount: nat, totalSize: nat, projects: seq<Entry>, caches: seq<Entry>, temps: seq<Entry>, sessions: seq<Entry>)

  const NoTally := Tally(0, 0, [], [], [], [])

  /** One walked entry: a file is counted, sized and categorised; a directory is categorised. */
  function Visit(t: Tally, e: Entry): Tally
  {
    if e.node.File? then
      var t1 := t.(fileCount := t.fileCount + 1, totalSize := t.totalSize + e.node.size);
      if IsTempFile(e.node.name) then t1.(temps := t1.temps + [e])
      else if IsSessionFile(e.node.name) then t1.(sessions := t1.sessions + [e])
      else t1
    else if IsCacheDir(e.node.name) then t.(caches := t.caches + [e])
    else if LooksLikeProject(e.node) then t.(projects := t.projects + [e])
    else t
  }

  function TallyOf(es: seq<Entry>): Tally
  {
    if es == [] then NoTally else Visit(TallyOf(es[..|es| - 1]), es[|es| - 1])
  }

  /** The sizes of the files among `es`. */
  function FileSizes(es: seq<Entry>): seq<nat>
  {
    if es == [] then []
    else FileSizes(es[..|es| - 1]) + (if es[|es| - 1].node.File? then [es[|es| - 1].node.size] else [])
  }

  predicate InTemp(e: Entry) { e.node.File? && IsTempFile(e.node.name) }
  predicate InSession(e: Entry) { e.node.File? && !IsTempFile(e.node.name) && IsSessionFile(e.node.name) }
  predicate InCache(e: Entry) { e.node.Dir? && IsCacheDir(e.node.name) }
  predicate InProject(e: Entry) { e.node.Dir? && !IsCacheDir(e.node.name) && LooksLikeProject(e.node) }

  /** The file count and total size are over exactly the walked files. */
  lemma {:induction false} TallySizes(es: seq<Entry>)
    ensures var t := TallyOf(es);
      t.fileCount == |FileSizes(es)| && t.totalSize == Sum(FileSizes(es))
    decreases |es|
  {
    if es != [] {
      var init := es[..|es| - 1];
      var last := es[|es| - 1];
      TallySizes(init);
      var t := TallyOf(init);
      if last.node.File? {
        assert Visit(t, last).totalSize == t.totalSize + last.node.size;
        SumAppend(FileSizes(init), [last.node.size]);
      } else {
        assert Visit(t, last).fileCount == t.fileCount && Visit(t, last).totalSize == t.totalSize;
        assert FileSizes(es) == FileSizes(init);
      }
    }
  }

  /** One visit appends the entry to at most the one list of its category. */
  lemma VisitLists(t: Tally, e: Entry)
    ensures var v := Visit(t, e);
      v.temps == t.temps + (if InTemp(e) then [e] else [])
      && v.sessions == t.sessions + (if InSession(e) then [e] else [])
      && v.caches == t.caches + (if InCache(e) then [e] else [])
      && v.projects == t.projects + (if InProject(e) then [e] else [])
  {
  }

  /**
   * Each list holds exactly the walked entries of its category, the
   * categories being checked in the source's order.
   */
  lemma {:induction false} TallyMembers(es: seq<Entry>)
    ensures var t := TallyOf(es);
      (forall e :: e in t.temps <==> e in es && InTemp(e))
      && (forall e :: e in t.sessions <==> e in es && InSession(e))
      && (forall e :: e in t.caches <==> e in es && InCache(e))
      && (forall e :: e in t.projects <==> e in es && InProject(e))
    decreases |es|
  {
    if es != [] {
      var init := es[..|es| - 1];
      var last := es[|es| - 1];
      TallyMembers(init);
      VisitLists(TallyOf(init), last);
      assert es == init + [last];
    }
  }

  /** A file is never both temporary and session; a directory never both cache and project. */
  lemma CategoriesDisjoint(es: seq<Entry>)
    ensures var t := TallyOf(es);
      (forall e :: !(e in t.temps && e in t.sessions)) && (forall e :: !(e in t.caches && e in t.projects))
  {
    TallyMembers(es);
  }

  // ------------------------------------------------------- cleanable items

  function RiskOf(k: Kind): Risk
  {
    if k == SessionFile then Medium else Low
  }

  function Label(k: Kind): string
  {
    match k
    case CacheFolder => "Cache folder: "
    case TempFile => "Temporary file: "
    case SessionFile => "Session file: "
  }

  /** `_estimate_directory_size` for a directory, `_get_file_size` for a file. */
  function SizeEstimate(e: Entry): nat
  {
    if e.node.File? then e.node.size
    else if e.node.readable then Sum(FileSizes(Walk(e.path, e.node.children)))
    else 0
  }

  function ItemFor(k: Kind, e: Entry): Cleanable
  {
    Cleanable(k, e.path, Label(k) + e.node.name, RiskOf(k), SizeEstimate(e))
  }

  function ItemsFor(k: Kind, es: seq<Entry>): (r: seq<Cleanable>)
    ensures |r| == |es| && forall i :: 0 <= i < |es| ==> r[i] == ItemFor(k, es[i])
  {
    seq(|es|, i requires 0 <= i < |es| => ItemFor(k, es[i]))
  }

  /**
   * `_identify_cleanable_items`: the cache folders, then the temporary files,
   * then the session files, one item each; low risk except session files.
   */
  function Cleanables(caches: seq<Entry>, temps: seq<Entry>, sessions: seq<Entry>): (r: seq<Cleanable>)
    ensures |r| == |caches| + |temps| + |sessions|
    ensures forall i :: 0 <= i < |r| ==>
      (r[i].kind == CacheFolder <==> i < |caches|)
      && (r[i].kind == SessionFile <==> i >= |caches| + |temps|)
      && (r[i].risk == Medium <==> r[i].kind == SessionFile)
    ensures forall i :: 0 <= i < |caches| ==> r[i].path == caches[i].path
    ensures forall i :: 0 <= i < |temps| ==> r[|caches| + i].path == temps[i].path
    ensures forall i :: 0 <= i < |sessions| ==> r[|caches| + |temps| + i].path == sessions[i].path
  {
    var a := ItemsFor(CacheFolder, caches);
    var b := ItemsFor(TempFile, temps);
    var c := ItemsFor(SessionFile, sessions);
    assert forall i :: 0 <= i < |a| ==> (a + b + c)[i] == a[i];
    assert forall i :: |a| <= i < |a| + |b| ==> (a + b + c)[i] == b[i - |a|];
    assert forall i :: |a| + |b| <= i < |a| + |b| + |c| ==> (a + b + c)[i] == c[i - |a| - |b|];
    a + b + c
  }

  function EntryPaths(es: seq<Entry>): (r: seq<Path>)
    ensures |r| == |es| && forall i :: 0 <= i < |es| ==> r[i] == es[i].path
  {
    seq(|es|, i requires 0 <= i < |es| => es[i].path)
  }

  /** The entries `rglob('*')` yields below `root`: none when `root` cannot be listed. */
  function RootWalk(path: Path, root: Node): seq<Entry>
    requires root.Dir?
  {
    if root.readable then Walk(path, root.children) else []
  }

  /**
   * `_analyze_workspace_directory` on the snapshot of `path`: None for a
   * missing path or a file; a directory that cannot be listed yields no
   * entries, so it is described with nothing in it.
   */
  function AnalyzeWorkspace(path: Path, root: Option<Node>): (r: Option<WorkspaceInfo>)
    ensures r.Some? <==> root.Some? && root.value.Dir?
    ensures r.Some? ==> r.value.path == path && r.value.name == PathName(path)
    ensures r.Some? && !root.value.readable ==>
      r.value.totalSize == 0 && r.value.fileCount == 0 && r.value.cleanable == [] && r.value.projectFolders == []
  {
    if root.None? || !root.value.Dir? then None
    else
      var t := TallyOf(RootWalk(path, root.value));
      Some(WorkspaceInfo(path, PathName(path), t.totalSize, t.fileCount, Cleanables(t.caches, t.temps, t.sessions),
                         EntryPaths(t.projects), EntryPaths(t.caches), EntryPaths(t.temps), EntryPaths(t.sessions)))
  }

  /** Entries of a walk that differ in category differ in path. */
  lemma ApartInWalk(es: seq<Entry>, xs: seq<Entry>, ys: seq<Entry>)
    requires DistinctPaths(es)
    requires forall e :: e in xs ==> e in es && !InProject(e)
    requires forall e :: e in ys ==> e in es && InProject(e)
    ensures forall i, j :: 0 <= i < |xs| && 0 <= j < |ys| ==> xs[i].path != ys[j].path
  {
    forall i, j | 0 <= i < |xs| && 0 <= j < |ys| ensures xs[i].path != ys[j].path {
      assert xs[i] in xs && ys[j] in ys;
      var a :| 0 <= a < |es| && es[a] == xs[i];
      var b :| 0 <= b < |es| && es[b] == ys[j];
      assert a != b;
    }
  }

  /**
   * In a real directory tree no project folder is ever a cleanable item:
   * every cleanable path is that of a cache folder, temporary file or
   * session file, and the walk never yields one path twice.
   */
  lemma ProjectFoldersNotCleanable(path: Path, root: Option<Node>)
    requires root.Some? && root.value.Dir? && WellFormedNode(root.value)
    ensures var r := AnalyzeWorkspace(path, root);
      r.Some? ==> forall i :: 0 <= i < |r.value.cleanable| ==> r.value.cleanable[i].path !in r.value.projectFolders
  {
    var r := AnalyzeWorkspace(path, root);
    if r.Some? {
      var es := RootWalk(path, root.value);
      var t := TallyOf(es);
      TallyMembers(es);
      if root.value.readable {
        WalkDistinct(path, root.value.children);
      }
      var all := t.caches + t.temps + t.sessions;
      ApartInWalk(es, all, t.projects);
      var cs := r.value.cleanable;
      forall i | 0 <= i < |cs| ensures cs[i].path == all[i].path {
      }
    }
  }

  // -------------------------------------------------------------- cleaning

  /**
   * The options `clean_workspace` reads: `backup_workspace` (default on),
   * `selected_items` (default none), `clear_all_cache`, `remove_lock_files`.
   */
  datatype CleanupOptions = CleanupOptions(
    backupWorkspace: bool, selectedItems: seq<string>, clearAllCache: bool, removeLockFiles: bool)

  predicate IsSelected(c: Cleanable, selected: seq<string>)
  {
    KindName(c.kind) in selected
  }

  /**
   * Where the workspace copy goes: under `workspace`, at the workspace's
   * whole path (the source writes `workspace/<name>`, which collides for two
   * workspaces of one name; see `Backup.NamedDestinationsCollide`).
   */
  function WorkspaceBackupRelative(w: WorkspaceInfo): (rel: Path)
    ensures |rel| == |w.path| + 1 && rel[0] == "workspace" && rel[1..] == w.path
  {
    KeepingRelative("workspace", w.path)
  }

  /**
   * Deleting one item: `unlink` if it is a file, `rmtree` if it is a
   * directory, nothing if it is gone; `failing` holds the paths whose
   * deletion raises.
   */
  function DeleteItem(d: Disk, p: Path, failing: set<Path>): (r: Outcome)
    ensures r.ok <==> !(Exists(d, p) && p in failing)
    ensures !r.ok ==> r.disk == d
  {
    if p in d.files then (if p in failing then Outcome(false, d) else Outcome(true, d.(files := d.files - {p})))
    else if p in d.dirs then (if p in failing then Outcome(false, d) else Outcome(true, RemoveTree(d, p)))
    else Outcome(true, d)
  }

  /** The item loop of `clean_workspace`: every selected item in turn, a failure recorded and passed over. */
  function DeleteSelected(d: Disk, items: seq<Cleanable>, selected: seq<string>, failing: set<Path>): (r: Outcome)
  {
    if items == [] then Outcome(true, d)
    else
      var prev := DeleteSelected(d, items[..|items| - 1], selected, failing);
      var c := items[|items| - 1];
      if IsSelected(c, selected) then
        var s := DeleteItem(prev.disk, c.path, failing);
        Outcome(prev.ok && s.ok, s.disk)
      else prev
  }

  /** `d2` is `d` with some files and directories removed, and nothing else changed. */
  predicate Shrunk(d: Disk, d2: Disk)
  {
    d2.files.Keys <= d.files.Keys && d2.dirs <= d.dirs && d2.manifests == d.manifests
    && forall p :: p in d2.files ==> d2.files[p] == d.files[p]
  }

  /** No selected item's path is `p` or one of its ancestors. */
  predicate NotBelowSelected(p: Path, items: seq<Cleanable>, selected: seq<string>)
  {
    forall i :: 0 <= i < |items| && IsSelected(items[i], selected) ==> !AtOrBelow(p, items[i].path)
  }

  /**
   * The loop only removes, and it removes nothing that is not a selected
   * item or below one: every other file and directory keeps its place and
   * its content.
   */
  lemma {:induction false} DeleteSelectedOnly(d: Disk, items: seq<Cleanable>, selected: seq<string>, failing: set<Path>)
    ensures var r := DeleteSelected(d, items, selected, failing);
      Shrunk(d, r.disk)
      && (forall p :: p in d.files && NotBelowSelected(p, items, selected) ==> p in r.disk.files)
      && (forall p :: p in d.dirs && NotBelowSelected(p, items, selected) ==> p in r.disk.dirs)
    decreases |items|
  {
    if items != [] {
      var init := items[..|items| - 1];
      var c := items[|items| - 1];
      DeleteSelectedOnly(d, init, selected, failing);
      forall p | NotBelowSelected(p, items, selected) ensures NotBelowSelected(p, init, selected) {
        forall i | 0 <= i < |init| && IsSelected(init[i], selected) ensures !AtOrBelow(p, init[i].path) {
          assert items[i] == init[i];
        }
      }
    }
  }

  /** The moment an item is reached: it is selected, still there, and its deletion raises. */
  predicate FailsAt(d: Disk, items: seq<Cleanable>, selected: seq<string>, failing: set<Path>, i: int)
    requires 0 <= i < |items|
  {
    IsSelected(items[i], selected)
    && Exists(DeleteSelected(d, items[..i], selected, failing).disk, items[i].path)
    && items[i].path in failing
  }

  /** The loop's result is false exactly when some deletion raised; it does not stop at the first. */
  lemma {:induction false} DeleteSelectedFails(d: Disk, items: seq<Cleanable>, selected: seq<string>, failing: set<Path>)
    ensures !DeleteSelected(d, items, selected, failing).ok
        <==> exists i :: 0 <= i < |items| && FailsAt(d, items, selected, failing, i)
    decreases |items|
  {
    if items != [] {
      var n := |items| - 1;
      var init := items[..n];
      DeleteSelectedFails(d, init, selected, failing);
      var prev := DeleteSelected(d, init, selected, failing);
      var c := items[n];
      assert items[..n] == init;
      assert FailsAt(d, items, selected, failing, n)
        <==> IsSelected(c, selected) && !DeleteItem(prev.disk, c.path, failing).ok;
      forall i | 0 <= i < n
        ensures FailsAt(d, items, selected, failing, i) <==> FailsAt(d, init, selected, failing, i)
      {
        assert items[..i] == init[..i];
      }
    }
  }

  /**
   * On a file system where no path is both a file and a directory, every
   * selected item whose deletion does not raise is gone at the end, even
   * when an earlier one failed.
   */
  lemma {:induction false} DeleteSelectedRemoves(d: Disk, items: seq<Cleanable>, selected: seq<string>, failing: set<Path>)
    requires d.files.Keys !! d.dirs
    ensures var r := DeleteSelected(d, items, selected, failing);
      forall i :: 0 <= i < |items| && IsSelected(items[i], selected) && items[i].path !in failing
        ==> !Exists(r.disk, items[i].path)
    decreases |items|
  {
    if items != [] {
      var n := |items| - 1;
      var init := items[..n];
      DeleteSelectedRemoves(d, init, selected, failing);
      DeleteSelectedOnly(d, init, selected, failing);
      var prev := DeleteSelected(d, init, selected, failing);
      var r := DeleteSelected(d, items, selected, failing);
      assert Shrunk(prev.disk, r.disk);
      forall i | 0 <= i < n && IsSelected(items[i], selected) && items[i].path !in failing
        ensures !Exists(r.disk, items[i].path)
      {
        assert items[i] == init[i];
      }
      assert prev.disk.files.Keys !! prev.disk.dirs;
    }
  }

  /** The names `_clear_all_cache_directories` globs for: `*cache*`, `*tmp*`, `*temp*`, `__pycache__`. */
  predicate CacheName(name: string)
  {
    Contains(name, "cache") || Contains(name, "tmp") || Contains(name, "temp") || name == "__pycache__"
  }

  /** The names `_remove_lock_files` globs for: `*.lock`, `*.lck`, `.lock*`. */
  predicate LockName(name: string)
  {
    EndsWith(name, ".lock") || EndsWith(name, ".lck") || StartsWith(name, ".lock")
  }

  /** `p` is, or lies below, a directory below `root` whose name is a cache name. */
  predicate InCacheDir(d: Disk, root: Path, p: Path)
  {
    StrictlyBelow(p, root) && exists k :: |root| < k <= |p| && p[..k] in d.dirs && CacheName(p[k - 1])
  }

  /** `p` is below `root` and has a lock-file name. */
  predicate LockFile(root: Path, p: Path)
  {
    StrictlyBelow(p, root) && LockName(PathName(p))
  }

  /**
   * `_clear_all_cache_directories`: every directory below `root` with a
   * cache name is removed with everything in it; the sweep reports success
   * whatever its deletions do.
   */
  function ClearCacheDirectories(d: Disk, root: Path): (r: Disk)
    ensures Shrunk(d, r)
    ensures forall c :: c in r.dirs && StrictlyBelow(c, root) ==> !CacheName(PathName(c))
    ensures forall p :: p in d.files && !StrictlyBelow(p, root) ==> p in r.files
    ensures forall p :: p in d.dirs && !StrictlyBelow(p, root) ==> p in r.dirs
  {
    var r := d.(files := map p | p in d.files && !InCacheDir(d, root, p) :: d.files[p],
                dirs := set p | p in d.dirs && !InCacheDir(d, root, p));
    forall c | c in r.dirs && StrictlyBelow(c, root) ensures !CacheName(PathName(c)) {
      assert c[..|c|] == c;
    }
    r
  }

  /** `_remove_lock_files`: every file below `root` with a lock-file name is removed; success is reported. */
  function RemoveLockFiles(d: Disk, root: Path): (r: Disk)
    ensures Shrunk(d, r) && r.dirs == d.dirs
    ensures forall p :: p in r.files ==> !LockFile(root, p)
    ensures forall p :: p in d.files && !LockFile(root, p) ==> p in r.files
  {
    d.(files := map p | p in d.files && !LockFile(root, p) :: d.files[p])
  }

  /** The sweeps `clean_workspace` runs after the items, the cache one before the lock one. */
  function Sweeps(d: Disk, root: Path, o: CleanupOptions): Disk
  {
    var c := if o.clearAllCache then ClearCacheDirectories(d, root) else d;
    if o.removeLockFiles then RemoveLockFiles(c, root) else c
  }

  /** What the requested sweeps take away. */
  predicate Swept(d: Disk, root: Path, o: CleanupOptions, p: Path)
  {
    (o.clearAllCache && InCacheDir(d, root, p)) || (o.removeLockFiles && LockFile(root, p))
  }

  /**
   * The part of `clean_workspace` after the backup: the selected items,
   * then the sweeps; only a raising item deletion makes it fail.
   */
  function CleanItems(d: Disk, w: WorkspaceInfo, o: CleanupOptions, failing: set<Path>): Outcome
  {
    var s := DeleteSelected(d, w.cleanable, o.selectedItems, failing);
    Outcome(s.ok, Sweeps(s.disk, w.path, o))
  }

  /**
   * The sweeps remove what they match and nothing else, and after them no
   * cache-named directory (when asked for) and no lock file (when asked
   * for) is left below `root`.
   */
  lemma SweepsEffect(d: Disk, root: Path, o: CleanupOptions)
    ensures var r := Sweeps(d, root, o);
      Shrunk(d, r)
      && (forall p :: p in d.files && !Swept(d, root, o, p) ==> p in r.files)
      && (forall p :: p in d.dirs && !(o.clearAllCache && InCacheDir(d, root, p)) ==> p in r.dirs)
      && (o.clearAllCache ==> forall c :: c in r.dirs && StrictlyBelow(c, root) ==> !CacheName(PathName(c)))
      && (o.removeLockFiles ==> forall p :: p in r.files ==> !LockFile(root, p))
  {
    var c := if o.clearAllCache then ClearCacheDirectories(d, root) else d;
    assert Shrunk(d, c);
  }

  /** A path outside every cache directory of `d` is outside every one of a disk with fewer directories. */
  lemma InCacheDirShrinks(d: Disk, d2: Disk, root: Path, p: Path)
    requires d2.dirs <= d.dirs && InCacheDir(d2, root, p)
    ensures InCacheDir(d, root, p)
  {
  }

  /**
   * The items and sweeps together change nothing outside the selected items
   * and the swept paths, remove every selected item that can be removed,
   * leave no swept name behind, and fail exactly when an item deletion
   * raised.
   */
  lemma CleanItemsEffect(d: Disk, w: WorkspaceInfo, o: CleanupOptions, failing: set<Path>)
    requires d.files.Keys !! d.dirs
    ensures var r := CleanItems(d, w, o, failing);
      var items := w.cleanable;
      Shrunk(d, r.disk)
      && (forall p :: p in d.files && NotBelowSelected(p, items, o.selectedItems) && !Swept(d, w.path, o, p)
            ==> p in r.disk.files)
      && (forall i :: 0 <= i < |items| && IsSelected(items[i], o.selectedItems) && items[i].path !in failing
            ==> !Exists(r.disk, items[i].path))
      && (o.clearAllCache ==> forall c :: c in r.disk.dirs && StrictlyBelow(c, w.path) ==> !CacheName(PathName(c)))
      && (o.removeLockFiles ==> forall p :: p in r.disk.files ==> !LockFile(w.path, p))
      && (r.ok <==> forall i :: 0 <= i < |items| ==> !FailsAt(d, items, o.selectedItems, failing, i))
  {
    var s := DeleteSelected(d, w.cleanable, o.selectedItems, failing);
    DeleteSelectedOnly(d, w.cleanable, o.selectedItems, failing);
    DeleteSelectedRemoves(d, w.cleanable, o.selectedItems, failing);
    DeleteSelectedFails(d, w.cleanable, o.selectedItems, failing);
    SweepsEffect(s.disk, w.path, o);
    forall p | p in d.files && NotBelowSelected(p, w.cleanable, o.selectedItems) && !Swept(d, w.path, o, p)
      ensures !Swept(s.disk, w.path, o, p)
    {
      if o.clearAllCache && InCacheDir(s.disk, w.path, p) {
        InCacheDirShrinks(d, s.disk, w.path, p);
      }
    }
  }

  /**
   * `clean_workspace`: the backup (when asked for) first; a failed backup
   * stops the clean with nothing deleted; then the selected items and the
   * sweeps.
   */
  ghost function CleanWorkspaceOutcome(d: Disk, w: WorkspaceInfo, dir: Path, o: CleanupOptions, copyOk: bool,
                                       failing: set<Path>): (r: Outcome)
    ensures o.backupWorkspace && !(w.path in d.dirs && copyOk) ==> !r.ok && r.disk == d
    ensures !o.backupWorkspace ==> r == CleanItems(d, w, o, failing)
  {
    var b := if o.backupWorkspace then BackupDirectoryOutcome(d, w.path, dir, WorkspaceBackupRelative(w), copyOk)
             else Outcome(true, d);
    if !b.ok then Outcome(false, b.disk) else CleanItems(b.disk, w, o, failing)
  }

  /**
   * Without a backup, the clean changes nothing outside the selected items
   * and the swept paths, removes every selected item that can be removed,
   * leaves no swept name behind, and fails exactly when a deletion raised:
   * the sweeps always report success.
   */
  lemma CleanWithoutBackup(d: Disk, w: WorkspaceInfo, dir: Path, o: CleanupOptions, failing: set<Path>)
    requires !o.backupWorkspace && d.files.Keys !! d.dirs
    ensures var r := CleanWorkspaceOutcome(d, w, dir, o, false, failing);
      var items := w.cleanable;
      Shrunk(d, r.disk)
      && (forall p :: p in d.files && NotBelowSelected(p, items, o.selectedItems) && !Swept(d, w.path, o, p)
            ==> p in r.disk.files)
      && (forall i :: 0 <= i < |items| && IsSelected(items[i], o.selectedItems) && items[i].path !in failing
            ==> !Exists(r.disk, items[i].path))
      && (o.clearAllCache ==> forall c :: c in r.disk.dirs && StrictlyBelow(c, w.path) ==> !CacheName(PathName(c)))
      && (o.removeLockFiles ==> forall p :: p in r.disk.files ==> !LockFile(w.path, p))
      && (r.ok <==> forall i :: 0 <= i < |items| ==> !FailsAt(d, items, o.selectedItems, failing, i))
  {
    CleanItemsEffect(d, w, o, failing);
  }

  /** Neither of two paths lies at or below the other. */
  predicate Apart(a: Path, b: Path)
  {
    !AtOrBelow(a, b) && !AtOrBelow(b, a)
  }

  /** Being at or below is transitive. */
  lemma BelowTransitive(x: Path, y: Path, z: Path)
    ensures AtOrBelow(x, y) && AtOrBelow(y, z) ==> AtOrBelow(x, z)
  {
    if AtOrBelow(x, y) && AtOrBelow(y, z) {
      assert x[..|z|] == y[..|z|];
    }
  }

  /** Two ancestors of one path lie one at or below the other. */
  lemma AncestorsComparable(x: Path, u: Path, v: Path)
    ensures AtOrBelow(x, u) && AtOrBelow(x, v) ==> AtOrBelow(u, v) || AtOrBelow(v, u)
  {
    if AtOrBelow(x, u) && AtOrBelow(x, v) {
      if |u| <= |v| { assert v[..|u|] == x[..|u|]; } else { assert u[..|v|] == x[..|v|]; }
    }
  }

  /** A path below `b` is apart from every path below `a` when `a` and `b` are apart. */
  lemma ApartBelow(a: Path, b: Path, p: Path, q: Path)
    requires Apart(a, b) && AtOrBelow(p, a) && AtOrBelow(q, b)
    ensures Apart(p, q)
  {
    BelowTransitive(p, q, b);
    AncestorsComparable(p, a, b);
    BelowTransitive(q, p, a);
    AncestorsComparable(q, a, b);
  }

  /**
   * With a backup that succeeds, the items and sweeps run on the disk the
   * copy left, and, when the backup directory and the workspace are apart
   * and every item lies in the workspace, the copy keeps every workspace
   * file as it was before anything was deleted.
   */
  lemma CleanWithBackup(d: Disk, w: WorkspaceInfo, dir: Path, o: CleanupOptions, failing: set<Path>)
    requires o.backupWorkspace && w.path in d.dirs
    requires Apart(dir, w.path)
    requires forall i :: 0 <= i < |w.cleanable| ==> StrictlyBelow(w.cleanable[i].path, w.path)
    ensures var b := BackupDirectoryOutcome(d, w.path, dir, WorkspaceBackupRelative(w), true);
      var r := CleanWorkspaceOutcome(d, w, dir, o, true, failing);
      var dest := DirectoryDestination(dir, w.path, WorkspaceBackupRelative(w));
      b.ok && r == CleanItems(b.disk, w, o, failing)
      && (r.ok <==> forall i :: 0 <= i < |w.cleanable| ==> !FailsAt(b.disk, w.cleanable, o.selectedItems, failing, i))
      && (forall p :: p in d.files && StrictlyBelow(p, w.path)
            ==> Rebase(p, w.path, dest) in r.disk.files && r.disk.files[Rebase(p, w.path, dest)] == d.files[p])
  {
    var b := BackupDirectoryOutcome(d, w.path, dir, WorkspaceBackupRelative(w), true);
    var dest := DirectoryDestination(dir, w.path, WorkspaceBackupRelative(w));
    var s := DeleteSelected(b.disk, w.cleanable, o.selectedItems, failing);
    DeleteSelectedFails(b.disk, w.cleanable, o.selectedItems, failing);
    DeleteSelectedOnly(b.disk, w.cleanable, o.selectedItems, failing);
    SweepsEffect(s.disk, w.path, o);
    forall p | p in d.files && StrictlyBelow(p, w.path)
      ensures Rebase(p, w.path, dest) in CleanItems(b.disk, w, o, failing).disk.files
      ensures CleanItems(b.disk, w, o, failing).disk.files[Rebase(p, w.path, dest)] == d.files[p]
    {
      var q := Rebase(p, w.path, dest);
      CopyTreeCopies(d, w.path, dest, p);
      assert q[..|dir|] == dir;
      CopySurvivesClean(b.disk, w, dir, o, failing, q);
    }
  }

  /** A file in a backup directory apart from the workspace outlives the items and the sweeps. */
  lemma CopySurvivesClean(d: Disk, w: WorkspaceInfo, dir: Path, o: CleanupOptions, failing: set<Path>, q: Path)
    requires q in d.files && AtOrBelow(q, dir) && Apart(dir, w.path)
    requires forall i :: 0 <= i < |w.cleanable| ==> StrictlyBelow(w.cleanable[i].path, w.path)
    ensures var r := CleanItems(d, w, o, failing);
      q in r.disk.files && r.disk.files[q] == d.files[q]
  {
    var s := DeleteSelected(d, w.cleanable, o.selectedItems, failing);
    DeleteSelectedOnly(d, w.cleanable, o.selectedItems, failing);
    forall i | 0 <= i < |w.cleanable| && IsSelected(w.cleanable[i], o.selectedItems)
      ensures !AtOrBelow(q, w.cleanable[i].path)
    {
      ApartBelow(dir, w.path, q, w.cleanable[i].path);
    }
    assert NotBelowSelected(q, w.cleanable, o.selectedItems);
    ApartBelow(dir, w.path, q, w.path);
    SweepsEffect(s.disk, w.path, o);
  }

  // ---------------------------------------------------------------- report

  function Power1024(k: nat): (r: nat)
    ensures r >= 1
  {
    if k == 0 then 1 else 1024 * Power1024(k - 1)
  }

  /** The unit `_format_size` settles on: the first of B, KB, MB, GB under which the value is below 1024, else TB. */
  function UnitIndex(n: nat, k: nat): (r: nat)
    requires k <= 4
    ensures k <= r <= 4
    ensures r < 4 ==> n < 1024 * Power1024(r)
    ensures forall j :: k <= j < r ==> n >= 1024 * Power1024(j)
    decreases 4 - k
  {
    if k == 4 || n < 1024 * Power1024(k) then k else UnitIndex(n, k + 1)
  }

  function UnitName(k: nat): string
    requires k <= 4
  {
    ["B", "KB", "MB", "GB", "TB"][k]
  }

  /**
   * `f"{x:.1f}"` of `x = n / d` counts tenths: the nearest tenth, a tie
   * going to the even one.
   */
  function RoundedTenths(n: nat, d: nat): (q: nat)
    requires d >= 1
    ensures -(d as int) <= 2 * (10 * n - q * d) <= d
  {
    var q0 := (10 * n) / d;
    var r0 := (10 * n) % d;
    assert 10 * n == q0 * d + r0 && 0 <= r0 < d;
    assert (q0 + 1) * d == q0 * d + d;
    if 2 * r0 < d then q0 else if 2 * r0 > d then q0 + 1 else if q0 % 2 == 0 then q0 else q0 + 1
  }

  /** `_format_size`. */
  function FormatSize(n: nat): string
  {
    var k := UnitIndex(n, 0);
    var q := RoundedTenths(n, Power1024(k));
    NatToString(q / 10) + "." + [DigitChar(q % 10)] + " " + UnitName(k)
  }

  /** Below one kilobyte the size is shown whole, in bytes. */
  lemma FormatSizeBytes(n: nat)
    requires n < 1024
    ensures FormatSize(n) == NatToString(n) + ".0 B"
  {
    assert Power1024(0) == 1;
    assert UnitIndex(n, 0) == 0;
    var q := RoundedTenths(n, 1);
    assert q == 10 * n;
    assert q / 10 == n && q % 10 == 0;
    assert UnitName(0) == "B";
    assert [DigitChar(0)] == "0";
  }

  const ReportTitle: string := "=== WORKSPACE DISCOVERY REPORT ==="
  const NoneFound: string := "No workspace locations found."

  function SizeSum(ws: seq<WorkspaceInfo>): nat
  {
    if ws == [] then 0 else SizeSum(ws[..|ws| - 1]) + ws[|ws| - 1].totalSize
  }

  function FileSum(ws: seq<WorkspaceInfo>): nat
  {
    if ws == [] then 0 else FileSum(ws[..|ws| - 1]) + ws[|ws| - 1].fileCount
  }

  function CleanableSum(ws: seq<WorkspaceInfo>): nat
  {
    if ws == [] then 0 else CleanableSum(ws[..|ws| - 1]) + |ws[|ws| - 1].cleanable|
  }

  function SummaryLines(ws: seq<WorkspaceInfo>): seq<string>
  {
    ["Summary:",
     "  Workspace locations: " + NatToString(|ws|),
     "  Total files: " + NatToString(FileSum(ws)),
     "  Total size: " + FormatSize(SizeSum(ws)),
     "  Cleanable items: " + NatToString(CleanableSum(ws)),
     ""]
  }

  function ItemLine(c: Cleanable): string
  {
    "     - " + c.description + " (" + FormatSize(c.sizeEstimate) + ")"
  }

  function MoreLine(n: nat): string
  {
    "     ... and " + NatToString(n) + " more items"
  }

  function ItemLines(cs: seq<Cleanable>): (r: seq<string>)
    ensures |r| == |cs| && forall j :: 0 <= j < |cs| ==> r[j] == ItemLine(cs[j])
  {
    if cs == [] then [] else ItemLines(cs[..|cs| - 1]) + [ItemLine(cs[|cs| - 1])]
  }

  function Shown(cs: seq<Cleanable>): seq<Cleanable>
  {
    if |cs| <= 5 then cs else cs[..5]
  }

  /** The lines under "Cleanable:": the first five items, then how many more there are. */
  function CleanableLines(cs: seq<Cleanable>): (r: seq<string>)
  {
    ItemLines(Shown(cs)) + (if |cs| > 5 then [MoreLine(|cs| - 5)] else [])
  }

  function BlockHeader(n: nat, w: WorkspaceInfo): seq<string>
  {
    [NatToString(n) + ". " + w.name,
     "   Path: " + PathText(w.path),
     "   Size: " + FormatSize(w.totalSize),
     "   Files: " + NatToString(w.fileCount),
     "   Cleanable items: " + NatToString(|w.cleanable|)]
  }

  /** The block of workspace number `n`. */
  function Block(n: nat, w: WorkspaceInfo): seq<string>
  {
    BlockHeader(n, w)
    + (if w.cleanable != [] then ["   Cleanable:"] + CleanableLines(w.cleanable) else [])
    + [""]
  }

  function Details(ws: seq<WorkspaceInfo>): seq<string>
  {
    if ws == [] then [] else Details(ws[..|ws| - 1]) + Block(|ws|, ws[|ws| - 1])
  }

  function ReportLines(ws: seq<WorkspaceInfo>): seq<string>
  {
    [ReportTitle, ""] + (if ws == [] then [NoneFound] else SummaryLines(ws) + Details(ws))
  }

  /** `generate_workspace_report`. */
  function WorkspaceReport(ws: seq<WorkspaceInfo>): string
  {
    Join(ReportLines(ws), '\n')
  }

  /** With nothing discovered the report is the title, a blank line and the notice. */
  lemma EmptyReport()
    ensures WorkspaceReport([]) == ReportTitle + "\n\n" + NoneFound
  {
    var lines := ReportLines([]);
    assert lines == [ReportTitle, "", NoneFound];
    assert lines[1..] == ["", NoneFound];
    assert lines[1..][1..] == [NoneFound];
  }

  /**
   * A workspace's cleanable list shows at most five items, the first ones in
   * order, and a "... and N more items" line exactly when there are more,
   * N being how many were not shown.
   */
  lemma CleanableLinesShape(cs: seq<Cleanable>)
    ensures var r := CleanableLines(cs);
      var shown := if |cs| < 5 then |cs| else 5;
      |r| == shown + (if |cs| > 5 then 1 else 0)
      && (forall j :: 0 <= j < shown ==> r[j] == ItemLine(cs[j]))
      && (|cs| > 5 ==> r[shown] == MoreLine(|cs| - 5) && shown + (|cs| - 5) == |cs|)
  {
  }

  // ----------------------------------------------------------------- class

  /** `WorkspaceCleaner`; the files it deletes are those of the backup manager's store. */
  class WorkspaceCleaner {
    const backupManager: BackupManager

    constructor (manager: BackupManager)
      ensures backupManager == manager
    {
      backupManager := manager;
    }

    /** The duplicate removal of `discover_workspace_locations`, with its `seen_paths` set. */
    method RemoveDuplicates(ws: seq<WorkspaceInfo>) returns (unique: seq<WorkspaceInfo>)
      ensures unique == UniqueByPath(ws)
    {
      unique := [];
      var seen: set<Path> := {};
      var i := 0;
      while i < |ws|
        invariant 0 <= i <= |ws|
        invariant unique == UniqueByPath(ws[..i])
        invariant forall p :: p in seen <==> p in PathsOf(unique)
      {
        TakeTake(ws, i + 1, i);
        var w := ws[i];
        if w.path !in seen {
          seen := seen + {w.path};
          assert PathsOf(unique + [w]) == PathsOf(unique) + [w.path];
          unique := unique + [w];
        }
        i := i + 1;
      }
      assert ws[..i] == ws;
    }

    /** `_looks_like_project_directory`, stopping at the first indicator. */
    method LooksLikeProjectDirectory(n: Node) returns (b: bool)
      ensures b == LooksLikeProject(n)
    {
      if !n.Dir? || !n.readable {
        return false;
      }
      var k := 0;
      while k < |n.children|
        invariant 0 <= k <= |n.children|
        invariant forall j :: 0 <= j < k ==> n.children[j].name !in ProjectIndicators
      {
        if n.children[k].name in ProjectIndicators {
          return true;
        }
        k := k + 1;
      }
      b := false;
    }

    /** One walked entry: the file branch and `_categorize_workspace_item`, or `_categorize_workspace_directory`. */
    method Categorize(t: Tally, e: Entry) returns (t2: Tally)
      ensures t2 == Visit(t, e)
    {
      if e.node.File? {
        t2 := t.(fileCount := t.fileCount + 1, totalSize := t.totalSize + e.node.size);
        var name := Lower(e.node.name);
        var suffix := Lower(Suffix(e.node.name));
        if StartsWith(name, "tmp") || StartsWith(name, "temp") || suffix in TempSuffixes {
          t2 := t2.(temps := t2.temps + [e]);
        } else if Contains(name, "session") || Contains(name, "cache") || suffix in SessionSuffixes {
          t2 := t2.(sessions := t2.sessions + [e]);
        }
      } else if IsCacheDir(e.node.name) {
        t2 := t.(caches := t.caches + [e]);
      } else {
        var project := LooksLikeProjectDirectory(e.node);
        t2 := if project then t.(projects := t.projects + [e]) else t;
      }
    }

    /** `_analyze_workspace_directory`. */
    method AnalyzeWorkspaceDirectory(path: Path, root: Option<Node>) returns (r: Option<WorkspaceInfo>)
      ensures r == AnalyzeWorkspace(path, root)
    {
      if root.None? || !root.value.Dir? {
        return None;
      }
      var es := if root.value.readable then Walk(path, root.value.children) else [];
      var t := NoTally;
      var i := 0;
      while i < |es|
        invariant 0 <= i <= |es|
        invariant t == TallyOf(es[..i])
      {
        TakeTake(es, i + 1, i);
        t := Categorize(t, es[i]);
        i := i + 1;
      }
      assert es[..i] == es;
      var items := IdentifyCleanableItems(t.caches, t.temps, t.sessions);
      r := Some(WorkspaceInfo(path, PathName(path), t.totalSize, t.fileCount, items,
                              EntryPaths(t.projects), EntryPaths(t.caches), EntryPaths(t.temps), EntryPaths(t.sessions)));
    }

    /** `_identify_cleanable_items`: its three loops. */
    method IdentifyCleanableItems(caches: seq<Entry>, temps: seq<Entry>, sessions: seq<Entry>) returns (items: seq<Cleanable>)
      ensures items == Cleanables(caches, temps, sessions)
    {
      items := AppendItems([], CacheFolder, caches);
      assert items == ItemsFor(CacheFolder, caches);
      items := AppendItems(items, TempFile, temps);
      items := AppendItems(items, SessionFile, sessions);
      assert items == ItemsFor(CacheFolder, caches) + ItemsFor(TempFile, temps) + ItemsFor(SessionFile, sessions);
    }

    /** One loop of `_identify_cleanable_items`. */
    method AppendItems(acc: seq<Cleanable>, k: Kind, es: seq<Entry>) returns (items: seq<Cleanable>)
      ensures items == acc + ItemsFor(k, es)
    {
      items := acc;
      var i := 0;
      while i < |es|
        invariant 0 <= i <= |es|
        invariant items == acc + ItemsFor(k, es[..i])
      {
        var size;
        if es[i].node.File? {
          size := GetFileSize(es[i]);
        } else {
          size := EstimateDirectorySize(es[i]);
        }
        items := items + [Cleanable(k, es[i].path, Label(k) + es[i].node.name, RiskOf(k), size)];
        assert ItemsFor(k, es[..i + 1]) == ItemsFor(k, es[..i]) + [ItemFor(k, es[i])];
        i := i + 1;
      }
      assert es[..i] == es;
    }

    /** `_get_file_size`. */
    function GetFileSize(e: Entry): (size: nat)
      requires e.node.File?
      ensures size == SizeEstimate(e)
    {
      e.node.size
    }

    /** `_estimate_directory_size`: the sizes of the files below, summed as the walk yields them. */
    method EstimateDirectorySize(e: Entry) returns (total: nat)
      requires e.node.Dir?
      ensures total == SizeEstimate(e)
    {
      if !e.node.readable {
        return 0;
      }
      var es := Walk(e.path, e.node.children);
      total := 0;
      var i := 0;
      while i < |es|
        invariant 0 <= i <= |es|
        invariant total == Sum(FileSizes(es[..i]))
      {
        TakeTake(es, i + 1, i);
        if es[i].node.File? {
          SumAppend(FileSizes(es[..i]), [es[i].node.size]);
          total := total + es[i].node.size;
        } else {
          assert FileSizes(es[..i + 1]) == FileSizes(es[..i]);
        }
        i := i + 1;
      }
      assert es[..i] == es;
    }

    /** One step of the item loop of `clean_workspace`. */
    method DeleteOne(p: Path, failing: set<Path>) returns (ok: bool)
      modifies backupManager
      ensures Outcome(ok, backupManager.disk) == DeleteItem(old(backupManager.disk), p, failing)
    {
      var d := backupManager.disk;
      if p in d.files {
        if p in failing {
          return false;
        }
        backupManager.disk := d.(files := d.files - {p});
      } else if p in d.dirs {
        if p in failing {
          return false;
        }
        backupManager.disk := RemoveTree(d, p);
      }
      ok := true;
    }

    /** `clean_workspace`. */
    method CleanWorkspace(w: WorkspaceInfo, dir: Path, o: CleanupOptions, copyOk: bool,
                          failing: set<Path>) returns (ok: bool)
      modifies backupManager
      ensures Outcome(ok, backupManager.disk) == CleanWorkspaceOutcome(old(backupManager.disk), w, dir, o, copyOk, failing)
    {
      if o.backupWorkspace {
        var backedUp := backupManager.BackupDirectory(w.path, dir, WorkspaceBackupRelative(w), copyOk);
        if !backedUp {
          return false;
        }
      }
      ghost var start := backupManager.disk;
      var items := w.cleanable;
      ok := true;
      var i := 0;
      while i < |items|
        invariant 0 <= i <= |items|
        invariant Outcome(ok, backupManager.disk) == DeleteSelected(start, items[..i], o.selectedItems, failing)
      {
        TakeTake(items, i + 1, i);
        if KindName(items[i].kind) in o.selectedItems {
          var deleted := DeleteOne(items[i].path, failing);
          ok := ok && deleted;
        }
        i := i + 1;
      }
      assert items[..i] == items;
      if o.clearAllCache {
        var cleared := ClearAllCacheDirectories(w.path);
        ok := ok && cleared;
      }
      if o.removeLockFiles {
        var removed := RemoveLockFilesIn(w.path);
        ok := ok && removed;
      }
    }

    /** `_clear_all_cache_directories`. */
    method ClearAllCacheDirectories(root: Path) returns (ok: bool)
      modifies backupManager
      ensures ok && backupManager.disk == ClearCacheDirectories(old(backupManager.disk), root)
    {
      backupManager.disk := ClearCacheDirectories(backupManager.disk, root);
      ok := true;
    }

    /** `_remove_lock_files`. */
    method RemoveLockFilesIn(root: Path) returns (ok: bool)
      modifies backupManager
      ensures ok && backupManager.disk == RemoveLockFiles(old(backupManager.disk), root)
    {
      backupManager.disk := RemoveLockFiles(backupManager.disk, root);
      ok := true;
    }

    /** `_format_size`: divide by 1024 until the value is below 1024 or the units run out. */
    method FormatSizeText(n: nat) returns (s: string)
      ensures s == FormatSize(n)
    {
      var k := 0;
      var d := 1;
      while k < 4 && n >= 1024 * d
        invariant 0 <= k <= 4 && d == Power1024(k)
        invariant UnitIndex(n, k) == UnitIndex(n, 0)
        decreases 4 - k
      {
        k := k + 1;
        d := 1024 * d;
      }
      var q := RoundedTenths(n, d);
      s := NatToString(q / 10) + "." + [DigitChar(q % 10)] + " " + UnitName(k);
    }

    /** The five header lines of a workspace's block. */
    method BlockHeaderText(n: nat, w: WorkspaceInfo) returns (lines: seq<string>)
      ensures lines == BlockHeader(n, w)
    {
      var size := FormatSizeText(w.totalSize);
      lines := [NatToString(n) + ". " + w.name,
                "   Path: " + PathText(w.path),
                "   Size: " + size,
                "   Files: " + NatToString(w.fileCount),
                "   Cleanable items: " + NatToString(|w.cleanable|)];
    }

    /** One listed item: its description and estimated size. */
    method ItemLineText(c: Cleanable) returns (line: string)
      ensures line == ItemLine(c)
    {
      var size := FormatSizeText(c.sizeEstimate);
      line := "     - " + c.description + " (" + size + ")";
    }

    /** The `for item in ...[:5]` loop. */
    method ItemLinesText(cs: seq<Cleanable>) returns (lines: seq<string>)
      ensures lines == ItemLines(cs)
    {
      lines := [];
      var j := 0;
      while j < |cs|
        invariant 0 <= j <= |cs|
        invariant lines == ItemLines(cs[..j])
      {
        TakeTake(cs, j + 1, j);
        var line := ItemLineText(cs[j]);
        lines := lines + [line];
        j := j + 1;
      }
      assert cs[..j] == cs;
    }

    /** The first five items, then the count of the rest. */
    method CleanableLinesText(cs: seq<Cleanable>) returns (lines: seq<string>)
      ensures lines == CleanableLines(cs)
    {
      lines := ItemLinesText(if |cs| <= 5 then cs else cs[..5]);
      if |cs| > 5 {
        lines := lines + [MoreLine(|cs| - 5)];
      }
    }

    /** The block of workspace number `n`. */
    method WorkspaceBlock(n: nat, w: WorkspaceInfo) returns (block: seq<string>)
      ensures block == Block(n, w)
    {
      block := BlockHeaderText(n, w);
      if w.cleanable != [] {
        var lines := CleanableLinesText(w.cleanable);
        block := block + ["   Cleanable:"] + lines;
      }
      block := block + [""];
    }

    /** The summary lines, from the generator sums. */
    method Summary(ws: seq<WorkspaceInfo>) returns (lines: seq<string>)
      ensures lines == SummaryLines(ws)
    {
      var size := FormatSizeText(SizeSum(ws));
      lines := ["Summary:",
                "  Workspace locations: " + NatToString(|ws|),
                "  Total files: " + NatToString(FileSum(ws)),
                "  Total size: " + size,
                "  Cleanable items: " + NatToString(CleanableSum(ws)),
                ""];
    }

    /** The numbered blocks, one per workspace (`enumerate(..., 1)`). */
    method DetailLines(ws: seq<WorkspaceInfo>) returns (lines: seq<string>)
      ensures lines == Details(ws)
    {
      lines := [];
      var i := 0;
      while i < |ws|
        invariant 0 <= i <= |ws|
        invariant lines == Details(ws[..i])
      {
        TakeTake(ws, i + 1, i);
        var block := WorkspaceBlock(i + 1, ws[i]);
        lines := lines + block;
        i := i + 1;
      }
      assert ws[..i] == ws;
    }

    /** `generate_workspace_report`. */
    method GenerateWorkspaceReport(ws: seq<WorkspaceInfo>) returns (report: string)
      ensures report == WorkspaceReport(ws)
    {
      var lines := [ReportTitle, ""];
      if ws == [] {
        lines := lines + [NoneFound];
      } else {
        var summary := Summary(ws);
        var details := DetailLines(ws);
        lines := lines + (summary + details);
      }
      report := Join(lines, '\n');
    }
  }
}
