// Platform predicates, identifier formats and the directory-tree searches of
// the utilities module.  The file system is seen as a snapshot tree; the
// searches walk it in pre-order.
module Utils {
  import opened Common

  // ------------------------------------------------------------ OS detection

  /** `platform.system().lower() == 'windows'`, and the other two. */
  predicate IsWindows(system: string) { Lower(system) == "windows" }
  predicate IsMacos(system: string) { Lower(system) == "darwin" }
  predicate IsLinux(system: string) { Lower(system) == "linux" }

  /** The platform is at most one of the three. */
  lemma AtMostOneOs(system: string)
    ensures !(IsWindows(system) && IsMacos(system))
    ensures !(IsWindows(system) && IsLinux(system))
    ensures !(IsMacos(system) && IsLinux(system))
  {
    if IsWindows(system) {
      assert Lower(system)[0] == 'w';
    } else if IsMacos(system) {
      assert Lower(system)[0] == 'd';
    }
  }

  // ------------------------------------------------------------ identifiers

  const HexDigits: string := "0123456789abcdef"

  predicate IsHex(s: string)
  {
    forall i :: 0 <= i < |s| ==> s[i] in HexDigits
  }

  function HexValue(c: char): nat
  {
    if '0' <= c <= '9' then c as int - '0' as int
    else if 'a' <= c <= 'f' then c as int - 'a' as int + 10
    else 0
  }

  /**
   * The 32 hex digits of a version-4 UUID built from 16 random bytes, given
   * as 32 nibbles: digit 12 is the version `4`, and the two top bits of
   * digit 16 are the variant bits `10`.
   */
  function Uuid4Nibbles(random: seq<nat>): (r: seq<nat>)
    requires |random| == 32
    ensures |r| == 32 && r[12] == 4 && 8 <= r[16] < 12
    ensures forall i :: 0 <= i < 32 ==> r[i] < 16
    ensures forall i :: 0 <= i < 32 && i != 12 && i != 16 ==> r[i] == random[i] % 16
  {
    seq(32, i requires 0 <= i < 32 =>
      if i == 12 then 4 else if i == 16 then 8 + random[16] % 4 else random[i] % 16)
  }

  function HexString(nibbles: seq<nat>): (r: string)
    requires forall i :: 0 <= i < |nibbles| ==> nibbles[i] < 16
    ensures |r| == |nibbles| && IsHex(r)
  {
    seq(|nibbles|, i requires 0 <= i < |nibbles| => HexDigits[nibbles[i]])
  }

  function ParseHex(s: string): seq<nat>
  {
    seq(|s|, i requires 0 <= i < |s| => HexValue(s[i]))
  }

  /** `uuid.uuid4().hex`: 32 lower-case hex digits with the version and variant digits fixed. */
  function GenerateUuid(random: seq<nat>): (r: string)
    requires |random| == 32
    ensures |r| == 32 && IsHex(r)
    ensures r[12] == '4' && r[16] in "89ab"
  {
    var n := Uuid4Nibbles(random);
    var r := HexString(n);
    assert r[16] == HexDigits[n[16]];
    r
  }

  /** The hex text decodes back to the nibbles it was made from. */
  lemma UuidRoundTrip(random: seq<nat>)
    requires |random| == 32
    ensures ParseHex(GenerateUuid(random)) == Uuid4Nibbles(random)
  {
    var n := Uuid4Nibbles(random);
    var r := GenerateUuid(random);
    forall i | 0 <= i < 32 ensures HexValue(r[i]) == n[i] {
      assert r[i] == HexDigits[n[i]];
      assert n[i] < 16;
    }
  }

  /** `f"device_{uuid}"`. */
  function GenerateDeviceId(random: seq<nat>): (r: string)
    requires |random| == 32
    ensures |r| == 39 && StartsWith(r, "device_") && IsHex(r[7..])
  {
    var u := GenerateUuid(random);
    var r := "device_" + u;
    assert r[7..] == u;
    r
  }

  /** `f"machine_{uuid}"`. */
  function GenerateMachineId(random: seq<nat>): (r: string)
    requires |random| == 32
    ensures |r| == 40 && StartsWith(r, "machine_") && IsHex(r[8..])
  {
    var u := GenerateUuid(random);
    var r := "machine_" + u;
    assert r[8..] == u;
    r
  }

  /** The `n` consecutive ASCII characters from `lo`. */
  function CharRange(lo: char, n: nat): (r: string)
    requires lo as int + n <= 128
    ensures |r| == n && forall i :: 0 <= i < n ==> r[i] as int == lo as int + i
  {
    seq(n, i requires 0 <= i < n => (lo as int + i) as char)
  }

  /** `string.ascii_letters + string.digits`: `a`-`z`, `A`-`Z`, `0`-`9`. */
  const Alphanumerics: string := CharRange('a', 26) + CharRange('A', 26) + CharRange('0', 10)

  /** The alphabet is exactly the ASCII letters and digits. */
  lemma AlphanumericsAreAlnum(c: char)
    ensures c in Alphanumerics <==> IsAlnum(c)
  {
    if c in Alphanumerics {
      var i :| 0 <= i < 62 && Alphanumerics[i] == c;
      if i < 26 {
        assert c == CharRange('a', 26)[i];
      } else if i < 52 {
        assert c == CharRange('A', 26)[i - 26];
      } else {
        assert c == CharRange('0', 10)[i - 52];
      }
    }
    if IsLowerAscii(c) {
      assert Alphanumerics[c as int - 'a' as int] == c;
    } else if IsUpperAscii(c) {
      assert Alphanumerics[c as int - 'A' as int + 26] == c;
    } else if IsDigit(c) {
      assert Alphanumerics[c as int - '0' as int + 52] == c;
    }
  }

  /**
   * `random.choices(ascii_letters + digits, k=length)`: `picks` stands for the
   * generator's successive draws; a negative length gives the empty string.
   */
  function GenerateRandomString(length: int, picks: seq<nat>): (r: string)
    requires length <= |picks|
    ensures |r| == if length < 0 then 0 else length
    ensures forall i :: 0 <= i < |r| ==> IsAlnum(r[i])
  {
    var n := if length < 0 then 0 else length;
    var r := seq(n, i requires 0 <= i < n => Alphanumerics[picks[i] % 62]);
    forall i | 0 <= i < n ensures IsAlnum(r[i]) {
      AlphanumericsAreAlnum(r[i]);
    }
    r
  }

  // ------------------------------------------------------ directory snapshots

  /** A file-system entry: a file, or a directory that may refuse to be listed. */
  datatype Node = File(name: string, size: nat) | Dir(name: string, readable: bool, children: seq<Node>)

  /** A path yielded by a directory walk, with the entry found there. */
  datatype Entry = Entry(path: Path, node: Node)

  function Names(nodes: seq<Node>): seq<string>
  {
    seq(|nodes|, i requires 0 <= i < |nodes| => nodes[i].name)
  }

  /** Sibling names are distinct, at every level (a real directory's listing). */
  predicate WellFormedForest(nodes: seq<Node>)
    decreases nodes
  {
    Distinct(Names(nodes))
    && forall i :: 0 <= i < |nodes| ==> WellFormedNode(nodes[i])
  }

  predicate WellFormedNode(n: Node)
    decreases n
  {
    n.Dir? ==> WellFormedForest(n.children)
  }

  /**
   * `rglob('*')` below the directory `base` whose listing is `nodes`: every
   * entry, each directory followed by what lies below it.  A directory that
   * cannot be listed contributes itself but nothing below it.
   */
  function Walk(base: Path, nodes: seq<Node>): seq<Entry>
    decreases nodes
  {
    if nodes == [] then []
    else
      var n := nodes[0];
      [Entry(base + [n.name], n)]
      + (if n.Dir? && n.readable then Walk(base + [n.name], n.children) else [])
      + Walk(base, nodes[1..])
  }

  /** `p` lies strictly below `base`, under one of `names`. */
  predicate Under(p: Path, base: Path, names: seq<string>)
  {
    |p| > |base| && p[..|base|] == base && p[|base|] in names
  }

  /** No path is walked twice. */
  predicate DistinctPaths(es: seq<Entry>)
  {
    forall i, j :: 0 <= i < j < |es| ==> es[i].path != es[j].path
  }

  /** A path below `base + [name]` lies below `base`, under `name`, and is longer than `base + [name]`. */
  lemma UnderChild(p: Path, base: Path, name: string, names: seq<string>)
    requires Under(p, base + [name], names)
    ensures |p| > |base| + 1 && p[..|base|] == base && p[|base|] == name
  {
    assert p[..|base|] == p[..|base| + 1][..|base|];
    assert p[|base|] == p[..|base| + 1][|base|];
  }

  lemma NamesTail(nodes: seq<Node>)
    requires nodes != []
    ensures Names(nodes[1..]) == Names(nodes)[1..]
    ensures Distinct(Names(nodes)) ==> nodes[0].name !in Names(nodes[1..])
  {
    assert Names(nodes)[0] == nodes[0].name;
  }

  /** Every walked path lies strictly below `base`, under one of the listed names. */
  lemma {:induction false} WalkBelow(base: Path, nodes: seq<Node>)
    ensures forall k :: 0 <= k < |Walk(base, nodes)| ==> Under(Walk(base, nodes)[k].path, base, Names(nodes))
    decreases nodes
  {
    if nodes != [] {
      var n := nodes[0];
      var sub := if n.Dir? && n.readable then Walk(base + [n.name], n.children) else [];
      var rest := Walk(base, nodes[1..]);
      var w := Walk(base, nodes);
      assert w == [Entry(base + [n.name], n)] + sub + rest;
      if n.Dir? && n.readable {
        WalkBelow(base + [n.name], n.children);
      }
      WalkBelow(base, nodes[1..]);
      NamesTail(nodes);
      forall k | 0 <= k < |w| ensures Under(w[k].path, base, Names(nodes)) {
        if k == 0 {
          assert w[k].path == base + [n.name] && Names(nodes)[0] == n.name;
          assert w[k].path[..|base|] == base;
        } else if k < 1 + |sub| {
          assert w[k] == sub[k - 1];
          UnderChild(w[k].path, base, n.name, Names(n.children));
          assert Names(nodes)[0] == n.name;
        } else {
          assert w[k] == rest[k - 1 - |sub|];
          assert w[k].path[|base|] in Names(nodes)[1..];
        }
      }
    }
  }

  /** Two runs of entries without repeats, sharing no path, make one without repeats. */
  lemma DistinctConcat(a: seq<Entry>, b: seq<Entry>)
    requires DistinctPaths(a) && DistinctPaths(b)
    requires forall i, j :: 0 <= i < |a| && 0 <= j < |b| ==> a[i].path != b[j].path
    ensures DistinctPaths(a + b)
  {
    var c := a + b;
    forall i, j | 0 <= i < j < |c| ensures c[i].path != c[j].path {
      if |a| <= i {
        assert c[i] == b[i - |a|] && c[j] == b[j - |a|];
      } else if |a| <= j {
        assert c[i] == a[i] && c[j] == b[j - |a|];
      }
    }
  }

  /** In a well-formed tree, no path is walked twice. */
  lemma {:induction false} WalkDistinct(base: Path, nodes: seq<Node>)
    requires WellFormedForest(nodes)
    ensures DistinctPaths(Walk(base, nodes))
    decreases nodes
  {
    if nodes != [] {
      var n := nodes[0];
      var head := [Entry(base + [n.name], n)];
      var sub := if n.Dir? && n.readable then Walk(base + [n.name], n.children) else [];
      var rest := Walk(base, nodes[1..]);
      var hs := head + sub;
      assert Walk(base, nodes) == hs + rest;
      assert WellFormedNode(n);
      assert DistinctPaths(hs) && forall i :: 0 <= i < |hs| ==> |hs[i].path| > |base| && hs[i].path[|base|] == n.name
      by {
        if n.Dir? && n.readable {
          WalkDistinct(base + [n.name], n.children);
        }
        HeadAndBelow(base, n, sub);
        DistinctConcat(head, sub);
        forall i | 0 <= i < |hs| ensures |hs[i].path| > |base| && hs[i].path[|base|] == n.name {
          if 0 < i {
            assert hs[i] == sub[i - 1];
          }
        }
      }
      assert DistinctPaths(rest) by {
        NamesTail(nodes);
        assert WellFormedForest(nodes[1..]);
        WalkDistinct(base, nodes[1..]);
      }
      RestApart(base, nodes, hs);
      DistinctConcat(hs, rest);
    }
  }

  /** The walk below a directory never yields the directory's own path again. */
  lemma HeadAndBelow(base: Path, n: Node, sub: seq<Entry>)
    requires sub == if n.Dir? && n.readable then Walk(base + [n.name], n.children) else []
    ensures forall j :: 0 <= j < |sub| ==> |sub[j].path| > |base| + 1 && sub[j].path[|base|] == n.name
  {
    if n.Dir? && n.readable {
      WalkBelow(base + [n.name], n.children);
      forall j | 0 <= j < |sub| ensures |sub[j].path| > |base| + 1 && sub[j].path[|base|] == n.name {
        UnderChild(sub[j].path, base, n.name, Names(n.children));
      }
    }
  }

  /** What the first node contributes lies under its name; the walk of its siblings does not. */
  lemma RestApart(base: Path, nodes: seq<Node>, hs: seq<Entry>)
    requires nodes != [] && WellFormedForest(nodes)
    requires forall i :: 0 <= i < |hs| ==> |hs[i].path| > |base| && hs[i].path[|base|] == nodes[0].name
    ensures forall i, j :: 0 <= i < |hs| && 0 <= j < |Walk(base, nodes[1..])| ==>
      hs[i].path != Walk(base, nodes[1..])[j].path
  {
    var rest := Walk(base, nodes[1..]);
    NamesTail(nodes);
    WalkBelow(base, nodes[1..]);
    forall i, j | 0 <= i < |hs| && 0 <= j < |rest| ensures hs[i].path != rest[j].path {
      assert rest[j].path[|base|] in Names(nodes[1..]);
    }
  }

  // --------------------------------------------------------- product folders

  /** The names `find_augmentcode_directories` looks for, case-insensitively. */
  const SearchPatterns: seq<string> :=
    ["augmentcode", "AugmentCode", "Augment Code", "augment_code", "augment", "Augment"]

  predicate MatchesProductName(name: string)
  {
    exists k :: 0 <= k < |SearchPatterns| && Contains(Lower(name), Lower(SearchPatterns[k]))
  }

  /** Every search pattern lowercases to a string containing `augment`, and that one is listed. */
  lemma ProductNameIsAugment(name: string)
    ensures MatchesProductName(name) <==> Contains(Lower(name), "augment")
  {
    forall k | 0 <= k < |SearchPatterns|
      ensures Contains(Lower(SearchPatterns[k]), "augment")
    {
      assert OccursAt(Lower(SearchPatterns[k]), "augment", 0);
    }
    if MatchesProductName(name) {
      var k :| 0 <= k < |SearchPatterns| && Contains(Lower(name), Lower(SearchPatterns[k]));
      ContainsTrans(Lower(name), Lower(SearchPatterns[k]), "augment");
    }
    assert Lower(SearchPatterns[4]) == "augment";
  }

  /** A search root: its path and, if it exists, its snapshot. */
  datatype Root = Root(path: Path, node: Option<Node>)

  /** What `iterdir()` on a plain file raises, as `str()` shows it (without the path that follows). */
  const NotADirectory: string := "[Errno 20] Not a directory"

  /** Root `i` exists and is a plain file. */
  predicate FileRoot(roots: seq<Root>, i: int)
  {
    0 <= i < |roots| && roots[i].node.Some? && roots[i].node.value.File?
  }

  /** The matching child directories of one listing, in listing order. */
  function DirsIn(base: Path, kids: seq<Node>): seq<Path>
  {
    if kids == [] then []
    else DirsIn(base, kids[..|kids| - 1])
         + (var n: Node := kids[|kids| - 1];
            if n.Dir? && MatchesProductName(n.name) then [base + [n.name]] else [])
  }

  /** What one root contributes: nothing if it is missing or cannot be listed. */
  function RootDirs(r: Root): seq<Path>
  {
    if r.node.Some? && r.node.value.Dir? && r.node.value.readable
    then DirsIn(r.path, r.node.value.children) else []
  }

  function ProductDirs(roots: seq<Root>): seq<Path>
  {
    if roots == [] then [] else ProductDirs(roots[..|roots| - 1]) + RootDirs(roots[|roots| - 1])
  }

  /**
   * `find_augmentcode_directories`: the roots in turn; the first existing
   * root that is a plain file makes `iterdir()` raise, and only a
   * permission error is caught, so the call raises.
   */
  function SearchRoots(roots: seq<Root>): Result<seq<Path>>
  {
    if roots == [] then Ok([])
    else
      var init := SearchRoots(roots[..|roots| - 1]);
      if init.Err? then init
      else if FileRoot(roots, |roots| - 1) then Err(NotADirectory)
      else Ok(init.value + RootDirs(roots[|roots| - 1]))
  }

  /** The search raises exactly when some root is a plain file, and otherwise returns the product directories. */
  lemma {:induction false} SearchRootsSpec(roots: seq<Root>)
    ensures SearchRoots(roots).Err? <==> exists i :: FileRoot(roots, i)
    ensures SearchRoots(roots).Err? ==> SearchRoots(roots).error == NotADirectory
    ensures SearchRoots(roots).Ok? ==> SearchRoots(roots).value == ProductDirs(roots)
    decreases |roots|
  {
    if roots != [] {
      var init := roots[..|roots| - 1];
      SearchRootsSpec(init);
      forall i | 0 <= i < |init| ensures FileRoot(roots, i) <==> FileRoot(init, i) {
        assert roots[i] == init[i];
      }
    }
  }

  /** Once a prefix of the roots raises, so does the whole search, with the same error. */
  lemma {:induction false} SearchRootsErrSticks(roots: seq<Root>, n: nat)
    requires n <= |roots| && SearchRoots(roots[..n]).Err?
    ensures SearchRoots(roots) == SearchRoots(roots[..n])
    decreases |roots| - n
  {
    if n < |roots| {
      var init := roots[..|roots| - 1];
      assert init[..n] == roots[..n];
      SearchRootsErrSticks(init, n);
    } else {
      assert roots[..n] == roots;
    }
  }

  /** The inner loop over the patterns: stops at the first one the name contains. */
  method MatchProductName(name: string) returns (matched: bool)
    ensures matched == MatchesProductName(name)
  {
    var k := 0;
    while k < |SearchPatterns|
      invariant 0 <= k <= |SearchPatterns|
      invariant forall q :: 0 <= q < k ==> !Contains(Lower(name), Lower(SearchPatterns[q]))
    {
      if Contains(Lower(name), Lower(SearchPatterns[k])) {
        return true;
      }
      k := k + 1;
    }
    return false;
  }

  /** The loop over one root's listing, appending the matching child directories. */
  method ScanListing(base: Path, kids: seq<Node>, found0: seq<Path>) returns (found: seq<Path>)
    ensures found == found0 + DirsIn(base, kids)
  {
    found := found0;
    var j := 0;
    while j < |kids|
      invariant 0 <= j <= |kids|
      invariant found == found0 + DirsIn(base, kids[..j])
    {
      TakeTake(kids, j + 1, j);
      var item := kids[j];
      if item.Dir? {
        var matched := MatchProductName(item.name);
        if matched {
          found := found + [base + [item.name]];
        }
      }
      j := j + 1;
    }
    assert kids[..j] == kids;
  }

  /** `FileSearcher.find_augmentcode_directories`. */
  method FindAugmentCodeDirectories(roots: seq<Root>) returns (r: Result<seq<Path>>)
    ensures r == SearchRoots(roots)
  {
    var found := [];
    var i := 0;
    while i < |roots|
      invariant 0 <= i <= |roots|
      invariant SearchRoots(roots[..i]) == Ok(found)
    {
      var root := roots[i];
      TakeTake(roots, i + 1, i);
      if root.node.Some? && root.node.value.File? {
        assert FileRoot(roots[..i + 1], i);
        SearchRootsErrSticks(roots, i + 1);
        return Err(NotADirectory);
      }
      assert roots[..i + 1][i] == root && !FileRoot(roots[..i + 1], i);
      ghost var next := found + RootDirs(root);
      assert SearchRoots(roots[..i + 1]) == Ok(next);
      if root.node.Some? && root.node.value.readable {
        found := ScanListing(root.path, root.node.value.children, found);
      }
      assert found == next;
      i := i + 1;
    }
    assert roots[..i] == roots;
    r := Ok(found);
  }

  /** Where a returned path came from: a matching child directory of the listing. */
  lemma {:induction false} DirsInSource(base: Path, kids: seq<Node>, p: Path) returns (j: nat)
    requires p in DirsIn(base, kids)
    ensures j < |kids| && kids[j].Dir? && MatchesProductName(kids[j].name) && p == base + [kids[j].name]
    decreases |kids|
  {
    var init := kids[..|kids| - 1];
    if p in DirsIn(base, init) {
      j := DirsInSource(base, init, p);
      assert kids[j] == init[j];
    } else {
      j := |kids| - 1;
    }
  }

  /** Every matching child directory is returned. */
  lemma {:induction false} DirsInComplete(base: Path, kids: seq<Node>, j: nat)
    requires j < |kids| && kids[j].Dir? && MatchesProductName(kids[j].name)
    ensures base + [kids[j].name] in DirsIn(base, kids)
    decreases |kids|
  {
    if j < |kids| - 1 {
      DirsInComplete(base, kids[..|kids| - 1], j);
    }
  }

  /** `p` is child `j` of root `i`: an existing, listable root, a directory, named with `augment`. */
  predicate IsProductDirOf(roots: seq<Root>, i: int, j: int, p: Path)
  {
    0 <= i < |roots| && roots[i].node.Some? && roots[i].node.value.Dir?
    && roots[i].node.value.readable && 0 <= j < |roots[i].node.value.children|
    && roots[i].node.value.children[j].Dir?
    && Contains(Lower(roots[i].node.value.children[j].name), "augment")
    && p == roots[i].path + [roots[i].node.value.children[j].name]
  }

  /**
   * A directory is found iff it is a child directory of an existing, listable
   * root and its name contains `augment` in any case.
   */
  lemma {:induction false} ProductDirsMembers(roots: seq<Root>, p: Path)
    ensures p in ProductDirs(roots) <==> exists i, j :: IsProductDirOf(roots, i, j, p)
    decreases |roots|
  {
    if roots != [] {
      var init := roots[..|roots| - 1];
      var last := roots[|roots| - 1];
      ProductDirsMembers(init, p);
      if p in RootDirs(last) {
        var j := DirsInSource(last.path, last.node.value.children, p);
        ProductNameIsAugment(last.node.value.children[j].name);
        assert IsProductDirOf(roots, |roots| - 1, j, p);
      }
      if p in ProductDirs(init) {
        var i, j :| IsProductDirOf(init, i, j, p);
        assert IsProductDirOf(roots, i, j, p);
      }
      if exists i, j :: IsProductDirOf(roots, i, j, p) {
        var i, j :| IsProductDirOf(roots, i, j, p);
        if i < |roots| - 1 {
          assert IsProductDirOf(init, i, j, p);
        } else {
          ProductNameIsAugment(last.node.value.children[j].name);
          DirsInComplete(last.path, last.node.value.children, j);
        }
      }
    }
  }

  lemma DistinctSnoc<T>(a: seq<T>, x: T)
    requires Distinct(a) && x !in a
    ensures Distinct(a + [x])
  {
  }

  /** Within one root, a directory is returned at most once. */
  lemma {:induction false} DirsInDistinct(base: Path, kids: seq<Node>)
    requires Distinct(Names(kids))
    ensures Distinct(DirsIn(base, kids))
    decreases |kids|
  {
    if kids != [] {
      var init := kids[..|kids| - 1];
      var n := kids[|kids| - 1];
      assert Names(init) == Names(kids)[..|kids| - 1];
      DirsInDistinct(base, init);
      if n.Dir? && MatchesProductName(n.name) {
        forall p | p in DirsIn(base, init) ensures p != base + [n.name] {
          var j := DirsInSource(base, init, p);
          assert Names(kids)[j] == init[j].name && Names(kids)[|kids| - 1] == n.name;
          assert p[|base|] == init[j].name;
        }
        DistinctSnoc(DirsIn(base, init), base + [n.name]);
      }
    }
  }

  // ------------------------------------------------------ files by extension

  /** The index of the last `c` in `s`, or -1 (`str.rfind`). */
  function LastIndexOf(s: string, c: char): (r: int)
    ensures -1 <= r < |s|
    ensures r >= 0 ==> s[r] == c
    ensures forall j :: r < j < |s| ==> s[j] != c
  {
    if s == [] then -1
    else if s[|s| - 1] == c then |s| - 1
    else LastIndexOf(s[..|s| - 1], c)
  }

  /** `PurePath.suffix`: from the last dot, unless it is the first or the last character. */
  function Suffix(name: string): (r: string)
    ensures r == [] || (|r| >= 2 && |r| < |name| && EndsWith(name, r) && r[0] == '.')
  {
    var i := LastIndexOf(name, '.');
    if 0 < i < |name| - 1 then name[i..] else ""
  }

  /** An extension as the searches list it: a dot, then at least one character, no other dot. */
  predicate IsExtension(ext: string)
  {
    |ext| >= 2 && ext[0] == '.' && '.' !in ext[1..]
  }

  /**
   * `path.suffix.lower() == ext` iff the lowercased name ends with `ext` and
   * has something before it.
   */
  lemma SuffixIsExtension(name: string, ext: string)
    requires IsExtension(ext)
    ensures Lower(Suffix(name)) == ext <==> EndsWith(Lower(name), ext) && |name| > |ext|
  {
    var i := LastIndexOf(name, '.');
    var p := |name| - |ext|;
    if Lower(Suffix(name)) == ext {
      assert 0 < i < |name| - 1 && Suffix(name) == name[i..];
      assert |name[i..]| == |ext|;
      assert Lower(name)[p..] == Lower(name[p..]);
    }
    if EndsWith(Lower(name), ext) && |name| > |ext| {
      assert Lower(name)[p..] == ext;
      assert Lower(name)[p] == '.';
      assert name[p] == '.';
      forall j | p < j < |name| ensures name[j] != '.' {
        assert Lower(name)[j] == ext[j - p];
        assert ext[1..][j - p - 1] == ext[j - p];
      }
      assert i == p;
      assert Lower(Suffix(name)) == Lower(name)[p..];
    }
  }

  const ConfigExtensions: seq<string> := [".json", ".ini", ".xml", ".cfg", ".conf", ".config"]
  const DatabaseExtensions: seq<string> := [".db", ".sqlite", ".sqlite3"]

  function FilesWithSuffix(es: seq<Entry>, exts: seq<string>): seq<Path>
  {
    if es == [] then []
    else FilesWithSuffix(es[..|es| - 1], exts)
         + (var e: Entry := es[|es| - 1];
            if e.node.File? && Lower(Suffix(e.node.name)) in exts then [e.path] else [])
  }

  /** One more walked entry adds its path when it is a file with a listed suffix. */
  lemma FilesWithSuffixSnoc(es: seq<Entry>, exts: seq<string>, i: nat)
    requires i < |es|
    ensures FilesWithSuffix(es[..i + 1], exts) == FilesWithSuffix(es[..i], exts)
      + (if es[i].node.File? && Lower(Suffix(es[i].node.name)) in exts then [es[i].path] else [])
  {
    TakeTake(es, i + 1, i);
  }

  /** What the recursive search sees below a directory that may be missing. */
  function Below(dir: Path, root: Option<Node>): seq<Entry>
  {
    if root.Some? && root.value.Dir? && root.value.readable then Walk(dir, root.value.children) else []
  }

  /** The loop shared by `find_config_files` and `find_database_files`. */
  method FindFilesWithSuffix(dir: Path, root: Option<Node>, exts: seq<string>) returns (files: seq<Path>)
    ensures files == FilesWithSuffix(Below(dir, root), exts)
  {
    files := [];
    if root.None? {
      return;
    }
    var entries := Below(dir, root);
    var i := 0;
    while i < |entries|
      invariant 0 <= i <= |entries|
      invariant files == FilesWithSuffix(entries[..i], exts)
    {
      FilesWithSuffixSnoc(entries, exts, i);
      var e := entries[i];
      if e.node.File? && Lower(Suffix(e.node.name)) in exts {
        files := files + [e.path];
      }
      i := i + 1;
    }
    assert entries[..i] == entries;
  }

  /** `FileSearcher.find_config_files`. */
  method FindConfigFiles(dir: Path, root: Option<Node>) returns (files: seq<Path>)
    ensures files == FilesWithSuffix(Below(dir, root), ConfigExtensions)
  {
    files := FindFilesWithSuffix(dir, root, ConfigExtensions);
  }

  /** `FileSearcher.find_database_files`. */
  method FindDatabaseFiles(dir: Path, root: Option<Node>) returns (files: seq<Path>)
    ensures files == FilesWithSuffix(Below(dir, root), DatabaseExtensions)
  {
    files := FindFilesWithSuffix(dir, root, DatabaseExtensions);
  }

  /** Where a returned path came from: a walked file with a listed suffix. */
  lemma {:induction false} FilesWithSuffixSource(es: seq<Entry>, exts: seq<string>, p: Path) returns (k: nat)
    requires p in FilesWithSuffix(es, exts)
    ensures k < |es| && es[k].path == p && es[k].node.File? && Lower(Suffix(es[k].node.name)) in exts
    decreases |es|
  {
    var init := es[..|es| - 1];
    if p in FilesWithSuffix(init, exts) {
      k := FilesWithSuffixSource(init, exts, p);
      assert es[k] == init[k];
    } else {
      k := |es| - 1;
    }
  }

  /** Every walked file with a listed suffix is returned. */
  lemma {:induction false} FilesWithSuffixComplete(es: seq<Entry>, exts: seq<string>, k: nat)
    requires k < |es| && es[k].node.File? && Lower(Suffix(es[k].node.name)) in exts
    ensures es[k].path in FilesWithSuffix(es, exts)
    decreases |es|
  {
    if k < |es| - 1 {
      FilesWithSuffixComplete(es[..|es| - 1], exts, k);
    }
  }

  /** Filtering keeps paths distinct when the walk had them distinct. */
  lemma {:induction false} FilesWithSuffixDistinct(es: seq<Entry>, exts: seq<string>)
    requires DistinctPaths(es)
    ensures Distinct(FilesWithSuffix(es, exts))
    decreases |es|
  {
    if es != [] {
      var init := es[..|es| - 1];
      var e := es[|es| - 1];
      FilesWithSuffixDistinct(init, exts);
      if e.node.File? && Lower(Suffix(e.node.name)) in exts {
        forall p | p in FilesWithSuffix(init, exts) ensures p != e.path {
          var k := FilesWithSuffixSource(init, exts, p);
          assert es[k] == init[k];
        }
        DistinctSnoc(FilesWithSuffix(init, exts), e.path);
      }
    }
  }

  /** The lowercased name ends in one of `exts`, with something before it. */
  predicate HasExtension(name: string, exts: seq<string>)
  {
    exists k :: 0 <= k < |exts| && EndsWith(Lower(name), exts[k]) && |name| > |exts[k]|
  }

  predicate AreExtensions(exts: seq<string>)
  {
    forall k :: 0 <= k < |exts| ==> IsExtension(exts[k])
  }

  /** Both searches list proper extensions. */
  lemma SearchedExtensions()
    ensures AreExtensions(ConfigExtensions) && AreExtensions(DatabaseExtensions)
  {
  }

  lemma SuffixInIffExtension(name: string, exts: seq<string>)
    requires AreExtensions(exts)
    ensures Lower(Suffix(name)) in exts <==> HasExtension(name, exts)
  {
    forall k | 0 <= k < |exts|
      ensures Lower(Suffix(name)) == exts[k] <==> EndsWith(Lower(name), exts[k]) && |name| > |exts[k]|
    {
      SuffixIsExtension(name, exts[k]);
    }
  }

  /**
   * `find_config_files` and `find_database_files` return each file of a
   * well-formed tree at most once, and exactly those whose lowercased name
   * ends in a listed extension after at least one other character; a missing
   * directory yields nothing.
   */
  lemma FilesWithSuffixSpec(dir: Path, root: Option<Node>, exts: seq<string>, p: Path)
    requires AreExtensions(exts)
    requires root.Some? && root.value.Dir? ==> WellFormedForest(root.value.children)
    ensures Distinct(FilesWithSuffix(Below(dir, root), exts))
    ensures root.None? ==> FilesWithSuffix(Below(dir, root), exts) == []
    ensures p in FilesWithSuffix(Below(dir, root), exts) <==>
      exists k :: 0 <= k < |Below(dir, root)| && Below(dir, root)[k].path == p
        && Below(dir, root)[k].node.File? && HasExtension(Below(dir, root)[k].node.name, exts)
  {
    var es := Below(dir, root);
    if root.Some? && root.value.Dir? && root.value.readable {
      WalkDistinct(dir, root.value.children);
    }
    FilesWithSuffixDistinct(es, exts);
    if p in FilesWithSuffix(es, exts) {
      var k := FilesWithSuffixSource(es, exts, p);
      SuffixInIffExtension(es[k].node.name, exts);
    }
    if exists k :: 0 <= k < |es| && es[k].path == p && es[k].node.File? && HasExtension(es[k].node.name, exts) {
      var k :| 0 <= k < |es| && es[k].path == p && es[k].node.File? && HasExtension(es[k].node.name, exts);
      SuffixInIffExtension(es[k].node.name, exts);
      FilesWithSuffixComplete(es, exts, k);
    }
  }
}
