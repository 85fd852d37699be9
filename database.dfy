// The SQLite inspector and cleaner of database_cleaner.py.  A database is a
// value: the table names in `sqlite_master` order and a map from name to
// table; a table is its column declarations and its rows.  The statements the
// cleaner issues (PRAGMA table_info, SELECT, DELETE, VACUUM) are functions on
// that value, and the sqlite3 connection, whose contents DELETE changes in
// place, is the class `Connection`.
module Database {
  import opened Common
  import opened Backup

  // ---------------------------------------------------------------- values

  /** A stored value; REAL and BLOB values are not modelled. */
  datatype Value = Null | Integer(n: int) | Text(s: string)

  /** The text SQLite matches with LIKE, which is also Python's `str(value)`; NULL has none. */
  function AsText(v: Value): (r: Option<string>)
    ensures r.None? <==> v.Null?
    ensures v.Text? ==> r == Some(v.s)
  {
    match v
    case Null => None
    case Integer(n) => Some(IntToString(n))
    case Text(s) => Some(s)
  }

  /** Python truthiness of a fetched value (`None`, `0` and `''` are false). */
  predicate Truthy(v: Value)
  {
    match v
    case Null => false
    case Integer(n) => n != 0
    case Text(s) => s != []
  }

  // ------------------------------------------------------------------ LIKE

  /**
   * SQLite's `s LIKE p`: `%` matches any run of characters, `_` any one
   * character, and letters compare without regard to ASCII case.
   */
  predicate Like(s: string, p: string)
    decreases |s| + |p|
  {
    if p == [] then s == []
    else if p[0] == '%' then Like(s, p[1..]) || (s != [] && Like(s[1..], p))
    else s != [] && (p[0] == '_' || LowerChar(p[0]) == LowerChar(s[0])) && Like(s[1..], p[1..])
  }

  /** The search parameter `f'%{keyword}%'`. */
  function Wrapped(keyword: string): string
  {
    "%" + keyword + "%"
  }

  predicate NoWildcards(k: string)
  {
    '%' !in k && '_' !in k
  }

  /** `value LIKE pattern`; a NULL value never matches. */
  predicate LikeValue(v: Value, pattern: string)
  {
    AsText(v).Some? && Like(AsText(v).value, pattern)
  }

  lemma {:induction false} LikeAnything(s: string)
    ensures Like(s, "%")
    decreases |s|
  {
    assert "%"[1..] == [];
    if s != [] {
      LikeAnything(s[1..]);
    }
  }

  /** Characters equal up to ASCII case, position by position. */
  predicate SameCI(a: string, b: string)
  {
    |a| == |b| && forall i :: 0 <= i < |a| ==> LowerChar(a[i]) == LowerChar(b[i])
  }

  /** A pattern that starts with a literal `k` matches exactly when `k` starts the text. */
  lemma {:induction false} LikeLiteral(s: string, k: string, rest: string)
    requires NoWildcards(k)
    ensures Like(s, k + rest) <==> (|k| <= |s| && SameCI(s[..|k|], k) && Like(s[|k|..], rest))
    decreases |k|
  {
    if k == [] {
      assert k + rest == rest;
      assert s[..0] == [] && s[0..] == s;
    } else {
      var p := k + rest;
      assert p[0] == k[0] && p[1..] == k[1..] + rest;
      if s != [] {
        LikeLiteral(s[1..], k[1..], rest);
        if |k| <= |s| {
          assert s[1..][|k| - 1..] == s[|k|..];
          assert s[1..][..|k| - 1] == s[..|k|][1..];
          if SameCI(s[..|k|], k) {
            assert LowerChar(s[..|k|][0]) == LowerChar(k[0]);
            assert SameCI(s[..|k|][1..], k[1..]);
          }
          if LowerChar(s[0]) == LowerChar(k[0]) && SameCI(s[1..][..|k| - 1], k[1..]) {
            forall i | 0 <= i < |k| ensures LowerChar(s[..|k|][i]) == LowerChar(k[i]) {
              if i > 0 {
                assert s[1..][..|k| - 1][i - 1] == s[..|k|][i];
              }
            }
          }
        }
      }
    }
  }

  /** A pattern led by `%` matches exactly when the rest matches some suffix. */
  lemma {:induction false} LikeLeadingPercent(s: string, q: string)
    ensures Like(s, "%" + q) <==> exists i :: 0 <= i <= |s| && Like(s[i..], q)
    decreases |s|
  {
    var p := "%" + q;
    assert p[0] == '%' && p[1..] == q;
    assert s[0..] == s;
    if s != [] {
      LikeLeadingPercent(s[1..], q);
      if Like(s[1..], p) {
        var i :| 0 <= i <= |s[1..]| && Like(s[1..][i..], q);
        assert s[1..][i..] == s[i + 1..];
      }
      if exists i :: 0 <= i <= |s| && Like(s[i..], q) {
        var i :| 0 <= i <= |s| && Like(s[i..], q);
        if i > 0 {
          assert s[1..][i - 1..] == s[i..];
          assert Like(s[1..], p);
        }
      }
    }
  }

  /**
   * Without wildcards in the keyword, `s LIKE '%keyword%'` is ASCII
   * case-insensitive containment.
   */
  lemma LikeContains(s: string, keyword: string)
    requires NoWildcards(keyword)
    ensures Like(s, Wrapped(keyword)) <==> ContainsCI(s, keyword)
  {
    var q := keyword + "%";
    assert Wrapped(keyword) == "%" + q;
    LikeLeadingPercent(s, q);
    if Like(s, Wrapped(keyword)) {
      var i :| 0 <= i <= |s| && Like(s[i..], q);
      LikeAtContains(s, keyword, i);
    }
    if ContainsCI(s, keyword) {
      var i :| 0 <= i <= |Lower(s)| - |Lower(keyword)| && OccursAt(Lower(s), Lower(keyword), i);
      ContainsLikeAt(s, keyword, i);
    }
  }

  /** A match of `keyword%` from `i` on is an occurrence of the keyword at `i`, ignoring case. */
  lemma LikeAtContains(s: string, keyword: string, i: nat)
    requires NoWildcards(keyword) && i <= |s| && Like(s[i..], keyword + "%")
    ensures OccursAt(Lower(s), Lower(keyword), i)
  {
    var n := |keyword|;
    LikeLiteral(s[i..], keyword, "%");
    assert s[i..][..n] == s[i..i + n];
    assert Lower(s)[i..i + n] == Lower(keyword);
  }

  /** An occurrence of the keyword at `i`, ignoring case, matches `keyword%` from `i` on. */
  lemma ContainsLikeAt(s: string, keyword: string, i: nat)
    requires NoWildcards(keyword) && OccursAt(Lower(s), Lower(keyword), i)
    ensures i <= |s| && Like(s[i..], keyword + "%")
  {
    var n := |keyword|;
    assert s[i..][..n] == s[i..i + n];
    forall j | 0 <= j < n ensures LowerChar(s[i..][..n][j]) == LowerChar(keyword[j]) {
      assert Lower(s)[i..i + n][j] == Lower(keyword)[j];
    }
    LikeAnything(s[i..][n..]);
    LikeLiteral(s[i..], keyword, "%");
  }

  // ---------------------------------------------------------------- schema

  /** One row of `PRAGMA table_info`: name, declared type, NOT NULL, primary key. */
  datatype Column = Column(name: string, declType: string, notNull: bool, primaryKey: bool)

  datatype Row = Row(rowid: int, values: seq<Value>)

  datatype Table = Table(columns: seq<Column>, rows: seq<Row>)

  /** A database file: its table names in `sqlite_master` order, and the tables. */
  datatype Db = Db(names: seq<string>, tables: map<string, Table>)

  /** The value of column `k` in a row (NULL past the stored values). */
  function Cell(r: Row, k: nat): Value
  {
    if k < |r.values| then r.values[k] else Null
  }

  /** SQLite refuses two columns of one table with the same name. */
  predicate DistinctNames(cols: seq<Column>)
  {
    forall i, j :: 0 <= i < j < |cols| ==> cols[i].name != cols[j].name
  }

  /** `PRAGMA table_info(t)`, which yields no rows for a table that does not exist. */
  function ColumnsOf(db: Db, t: string): seq<Column>
  {
    if t in db.tables then db.tables[t].columns else []
  }

  // ----------------------------------------------------------- classifiers

  const TextTypeMarkers: seq<string> := ["TEXT", "VARCHAR", "CHAR"]

  /** A column searched for keywords: its upper-cased declared type contains TEXT, VARCHAR or CHAR. */
  predicate IsTextType(declType: string)
  {
    ContainsAny(Upper(declType), TextTypeMarkers)
  }

  /** The regexes of `_is_potential_id_column`: `.*x$` and `x.*`. */
  datatype IdPattern = AtEnd(x: string) | Anywhere(x: string)

  const IdPatterns: seq<IdPattern> :=
    [AtEnd("id"), AtEnd("_id"), AtEnd("Id"),
     Anywhere("device"), Anywhere("machine"), Anywhere("client"),
     Anywhere("telemetry"), Anywhere("session"), Anywhere("user"),
     Anywhere("guid"), Anywhere("uuid"), Anywhere("unique")]

  /**
   * `re.search(pattern, name, re.IGNORECASE)`: `.*x$` finds `x` right before
   * the end of the name or before a final newline; `x.*` finds `x` anywhere.
   */
  predicate Found(p: IdPattern, name: string)
  {
    match p
    case AtEnd(x) =>
      exists i :: 0 <= i <= |name| && OccursAt(Lower(name), Lower(x), i)
        && (i + |x| == |name| || (i + |x| + 1 == |name| && name[|name| - 1] == '\n'))
    case Anywhere(x) => ContainsCI(name, x)
  }

  /** `_is_potential_id_column`: some pattern is found in the name. */
  predicate IsPotentialIdColumn(name: string)
  {
    exists k :: 0 <= k < |IdPatterns| && Found(IdPatterns[k], name)
  }

  const IdWords: seq<string> :=
    ["device", "machine", "client", "telemetry", "session", "user", "guid", "uuid", "unique"]

  /** The lowered name ends in `id`, or in `id` and a newline. */
  predicate EndsInId(name: string)
  {
    EndsWith(Lower(name), "id") || EndsWith(Lower(name), "id\n")
  }

  /** An `.*x$` match for `x` of `id`, `_id` or `Id` leaves the name ending in `id`. */
  lemma EndPatternEndsInId(name: string, x: string, i: int)
    requires Lower(x) == "id" || Lower(x) == "_id"
    requires OccursAt(Lower(name), Lower(x), i)
    requires i + |x| == |name| || (i + |x| + 1 == |name| && name[|name| - 1] == '\n')
    ensures EndsInId(name)
  {
    var l := Lower(name);
    var j := if Lower(x) == "id" then i else i + 1;
    assert l[i..i + |x|][j - i..] == l[j..j + 2];
    assert l[j..j + 2] == "id";
    if i + |x| == |name| {
      assert l[|l| - 2..] == l[j..j + 2];
    } else {
      assert l[|l| - 1] == LowerChar(name[|name| - 1]) == '\n';
      assert l[|l| - 3..] == l[j..j + 2] + [l[|l| - 1]];
    }
  }

  /** Some of the nine words occurs in the name, ignoring ASCII case. */
  predicate HasIdWord(name: string)
  {
    exists k :: 0 <= k < |IdWords| && ContainsCI(name, IdWords[k])
  }

  lemma IdPatternShapes()
    ensures |IdPatterns| == 12
    ensures IdPatterns[0] == AtEnd("id") && IdPatterns[1] == AtEnd("_id") && IdPatterns[2] == AtEnd("Id")
    ensures forall k :: 0 <= k < |IdWords| ==> IdPatterns[k + 3] == Anywhere(IdWords[k])
  {
  }

  lemma LowerIdLiterals()
    ensures Lower("id") == "id" && Lower("_id") == "_id" && Lower("Id") == "id"
  {
  }

  /** A name ending in `id` (or `id` and a newline) matches `.*id$`. */
  lemma EndsInIdFound(name: string)
    requires EndsInId(name)
    ensures Found(AtEnd("id"), name)
  {
    var l := Lower(name);
    LowerIdLiterals();
    if EndsWith(l, "id") {
      assert OccursAt(l, "id", |name| - 2);
    } else {
      assert OccursAt(l, "id", |name| - 3);
      assert LowerChar(name[|name| - 1]) == l[|l| - 1] == '\n';
    }
  }

  /**
   * The twelve patterns collapse to one rule: the name ends in `id`
   * (`_id` and `Id` add nothing under IGNORECASE) or contains one of the
   * nine words, ignoring ASCII case.
   */
  lemma PotentialIdRule(name: string)
    ensures IsPotentialIdColumn(name) <==> (EndsInId(name) || HasIdWord(name))
  {
    IdPatternShapes();
    LowerIdLiterals();
    if IsPotentialIdColumn(name) {
      var k :| 0 <= k < |IdPatterns| && Found(IdPatterns[k], name);
      if k < 3 {
        var x := IdPatterns[k].x;
        var i :| 0 <= i <= |name| && OccursAt(Lower(name), Lower(x), i)
          && (i + |x| == |name| || (i + |x| + 1 == |name| && name[|name| - 1] == '\n'));
        EndPatternEndsInId(name, x, i);
      } else {
        assert IdPatterns[(k - 3) + 3] == Anywhere(IdWords[k - 3]);
      }
    }
    if EndsInId(name) {
      EndsInIdFound(name);
      assert Found(IdPatterns[0], name);
    }
    if HasIdWord(name) {
      var k :| 0 <= k < |IdWords| && ContainsCI(name, IdWords[k]);
      assert Found(IdPatterns[k + 3], name);
    }
  }

  /** `[col[1] for col in columns if <text type>]`. */
  function TextColumnNames(cols: seq<Column>): (r: seq<string>)
    ensures |r| <= |cols|
  {
    if cols == [] then []
    else
      var rest := TextColumnNames(cols[..|cols| - 1]);
      var c := cols[|cols| - 1];
      if IsTextType(c.declType) then rest + [c.name] else rest
  }

  lemma {:induction false} TextColumnNamesMembers(cols: seq<Column>, n: string)
    ensures n in TextColumnNames(cols)
        <==> exists k :: 0 <= k < |cols| && cols[k].name == n && IsTextType(cols[k].declType)
  {
    if cols != [] {
      var init := cols[..|cols| - 1];
      TextColumnNamesMembers(init, n);
      if exists k :: 0 <= k < |init| && init[k].name == n && IsTextType(init[k].declType) {
        var k :| 0 <= k < |init| && init[k].name == n && IsTextType(init[k].declType);
        assert cols[k] == init[k];
      }
      if exists k :: 0 <= k < |cols| && cols[k].name == n && IsTextType(cols[k].declType) {
        var k :| 0 <= k < |cols| && cols[k].name == n && IsTextType(cols[k].declType);
        if k < |init| {
          assert init[k] == cols[k];
        }
      }
    }
  }

  /** Under SQLite's distinct column names, a column is listed by name exactly when it is text. */
  lemma TextColumnAt(cols: seq<Column>, k: nat)
    requires DistinctNames(cols) && k < |cols|
    ensures cols[k].name in TextColumnNames(cols) <==> IsTextType(cols[k].declType)
  {
    TextColumnNamesMembers(cols, cols[k].name);
    if cols[k].name in TextColumnNames(cols) {
      var j :| 0 <= j < |cols| && cols[j].name == cols[k].name && IsTextType(cols[j].declType);
      assert j == k;
    }
  }

  /** `table_info['potential_id_columns']`. */
  function IdColumnNames(cols: seq<Column>): (r: seq<string>)
    ensures |r| <= |cols|
  {
    if cols == [] then []
    else
      var rest := IdColumnNames(cols[..|cols| - 1]);
      var c := cols[|cols| - 1];
      if IsPotentialIdColumn(c.name) then rest + [c.name] else rest
  }

  lemma {:induction false} IdColumnNamesMembers(cols: seq<Column>, n: string)
    ensures n in IdColumnNames(cols)
        <==> exists k :: 0 <= k < |cols| && cols[k].name == n && IsPotentialIdColumn(n)
  {
    if cols != [] {
      var init := cols[..|cols| - 1];
      IdColumnNamesMembers(init, n);
      if exists k :: 0 <= k < |init| && init[k].name == n && IsPotentialIdColumn(n) {
        var k :| 0 <= k < |init| && init[k].name == n && IsPotentialIdColumn(n);
        assert cols[k] == init[k];
      }
      if exists k :: 0 <= k < |cols| && cols[k].name == n && IsPotentialIdColumn(n) {
        var k :| 0 <= k < |cols| && cols[k].name == n && IsPotentialIdColumn(n);
        if k < |init| {
          assert init[k] == cols[k];
        }
      }
    }
  }

  // -------------------------------------------------------------- analysis

  /** The `table_info` record of `_analyze_table`. */
  datatype TableInfo = TableInfo(name: string, columns: seq<Column>, rowCount: nat,
                                 textColumns: seq<string>, idColumns: seq<string>)

  /**
   * `_analyze_table(t)`.  For a table that does not exist PRAGMA yields no
   * columns and `SELECT COUNT(*)` fails, so the record stays empty.
   */
  function TableInfoOf(db: Db, t: string): TableInfo
  {
    var cols := ColumnsOf(db, t);
    TableInfo(t, cols, if t in db.tables then |db.tables[t].rows| else 0,
              TextColumnNames(cols), IdColumnNames(cols))
  }

  const TargetPatterns: seq<string> :=
    ["account", "user", "session", "login", "auth", "telemetry", "analytics", "log",
     "history", "workspace", "project", "setting", "preference"]

  /** `_is_potential_cleanup_target`. */
  predicate IsPotentialCleanupTarget(info: TableInfo)
  {
    ContainsAny(Lower(info.name), TargetPatterns)
    || info.idColumns != []
    || (info.textColumns != [] && info.rowCount > 0)
  }

  /**
   * A table is a cleanup target exactly when its lowered name contains one of
   * the thirteen keywords, one of its columns has an ID-like name, or it has a
   * text column and at least one row.
   */
  lemma CleanupTargetIff(db: Db, t: string)
    ensures var cols := ColumnsOf(db, t);
      IsPotentialCleanupTarget(TableInfoOf(db, t))
      <==> (ContainsAny(Lower(t), TargetPatterns)
            || (exists k :: 0 <= k < |cols| && IsPotentialIdColumn(cols[k].name))
            || ((exists k :: 0 <= k < |cols| && IsTextType(cols[k].declType))
                && t in db.tables && |db.tables[t].rows| > 0))
  {
    var cols := ColumnsOf(db, t);
    var ids := IdColumnNames(cols);
    var texts := TextColumnNames(cols);
    if ids != [] {
      IdColumnNamesMembers(cols, ids[0]);
    }
    if exists k :: 0 <= k < |cols| && IsPotentialIdColumn(cols[k].name) {
      var k :| 0 <= k < |cols| && IsPotentialIdColumn(cols[k].name);
      IdColumnNamesMembers(cols, cols[k].name);
    }
    if texts != [] {
      TextColumnNamesMembers(cols, texts[0]);
    }
    if exists k :: 0 <= k < |cols| && IsTextType(cols[k].declType) {
      var k :| 0 <= k < |cols| && IsTextType(cols[k].declType);
      TextColumnNamesMembers(cols, cols[k].name);
    }
  }

  /** The result of `analyze_database` without its file path and size. */
  datatype Analysis = Analysis(tables: seq<TableInfo>, targets: seq<TableInfo>)

  /** The analysis loop over the listed table names. */
  function Analyzed(db: Db, names: seq<string>): (a: Analysis)
    ensures |a.tables| == |names| && |a.targets| <= |names|
  {
    if names == [] then Analysis([], [])
    else
      var a := Analyzed(db, names[..|names| - 1]);
      var info := TableInfoOf(db, names[|names| - 1]);
      Analysis(a.tables + [info], if IsPotentialCleanupTarget(info) then a.targets + [info] else a.targets)
  }

  /** The file's analysis; a file that is not an SQLite database fails at the first query. */
  function AnalysisOf(isDatabase: bool, db: Db): Analysis
  {
    if isDatabase then Analyzed(db, db.names) else Analysis([], [])
  }

  /**
   * Every listed table is analysed in order, and the targets are exactly the
   * analysed tables that are cleanup targets, in the same order.
   */
  lemma {:induction false} AnalyzedTables(db: Db, names: seq<string>)
    ensures var a := Analyzed(db, names);
      (forall k :: 0 <= k < |names| ==> a.tables[k] == TableInfoOf(db, names[k]))
      && (forall info :: info in a.targets <==> info in a.tables && IsPotentialCleanupTarget(info))
  {
    if names != [] {
      var init := names[..|names| - 1];
      AnalyzedTables(db, init);
      var a := Analyzed(db, names);
      var a0 := Analyzed(db, init);
      forall k | 0 <= k < |names| ensures a.tables[k] == TableInfoOf(db, names[k]) {
        if k < |init| {
          assert a.tables[k] == a0.tables[k];
        }
      }
    }
  }

  /** `[t['name'] for t in analysis['potential_cleanup_targets']]`. */
  function NamesOf(infos: seq<TableInfo>): (r: seq<string>)
    ensures |r| == |infos| && forall k :: 0 <= k < |infos| ==> r[k] == infos[k].name
  {
    seq(|infos|, k requires 0 <= k < |infos| => infos[k].name)
  }

  // ------------------------------------------------------------ statements

  /** The WHERE clauses the cleaner builds. */
  datatype Where =
    | Everything                                     // no WHERE clause
    | AnyLike(columns: seq<string>, pattern: string) // `c1 LIKE ? OR c2 LIKE ? ...`, one parameter for each
    | Equals(column: string, value: string)          // `c = ?`

  /** Whether the clause holds for a row of a table with these columns. */
  predicate Selected(cols: seq<Column>, x: Row, w: Where)
  {
    match w
    case Everything => true
    case AnyLike(names, p) => exists k :: 0 <= k < |cols| && cols[k].name in names && LikeValue(Cell(x, k), p)
    case Equals(name, v) => exists k :: 0 <= k < |cols| && cols[k].name == name && Cell(x, k) == Text(v)
  }

  /** The rows a DELETE leaves, in their order. */
  function Keep(cols: seq<Column>, rows: seq<Row>, w: Where): (r: seq<Row>)
    ensures |r| <= |rows|
    ensures forall x :: x in r ==> x in rows
  {
    if rows == [] then []
    else
      var rest := Keep(cols, rows[..|rows| - 1], w);
      var x := rows[|rows| - 1];
      if Selected(cols, x, w) then rest else rest + [x]
  }

  /** The rows a SELECT with the same clause returns, in their order. */
  function Matching(cols: seq<Column>, rows: seq<Row>, w: Where): (r: seq<Row>)
    ensures |r| + |Keep(cols, rows, w)| == |rows|
    ensures forall x :: x in r ==> x in rows && Selected(cols, x, w)
  {
    if rows == [] then []
    else
      var rest := Matching(cols, rows[..|rows| - 1], w);
      var x := rows[|rows| - 1];
      if Selected(cols, x, w) then rest + [x] else rest
  }

  lemma {:induction false} KeepMembers(cols: seq<Column>, rows: seq<Row>, w: Where, x: Row)
    ensures x in Keep(cols, rows, w) <==> x in rows && !Selected(cols, x, w)
  {
    if rows != [] {
      var init := rows[..|rows| - 1];
      KeepMembers(cols, init, w, x);
      assert rows == init + [rows[|rows| - 1]];
    }
  }

  /** `DELETE FROM t WHERE w` on a table that exists. */
  function Deleting(db: Db, t: string, w: Where): (r: Db)
    requires t in db.tables
    ensures Shrunk(db, r)
    ensures forall u :: u in db.tables && u != t ==> r.tables[u] == db.tables[u]
  {
    var tb := db.tables[t];
    db.(tables := db.tables[t := tb.(rows := Keep(tb.columns, tb.rows, w))])
  }

  /** Same names, tables and columns; every table of `b` holds only rows of `a`. */
  predicate Shrunk(a: Db, b: Db)
  {
    b.names == a.names && b.tables.Keys == a.tables.Keys
    && forall u :: u in a.tables ==>
         b.tables[u].columns == a.tables[u].columns
         && (forall x :: x in b.tables[u].rows ==> x in a.tables[u].rows)
  }

  /** Why a statement fails: `OperationalError` for a missing table, `DatabaseError` for a file that is no database. */
  datatype Failure = NoSuchTable | NotADatabase

  datatype Exec = Done(count: nat) | Failed(failure: Failure)

  /** The first listed table whose name equals `t` ignoring ASCII case. */
  function CaseMatch(names: seq<string>, keys: set<string>, t: string): (r: Option<string>)
    ensures r.Some? ==> r.value in names && r.value in keys && Lower(r.value) == Lower(t)
    ensures r.None? <==> forall i :: 0 <= i < |names| && names[i] in keys ==> Lower(names[i]) != Lower(t)
  {
    if names == [] then None
    else if names[0] in keys && Lower(names[0]) == Lower(t) then Some(names[0])
    else
      var r := CaseMatch(names[1..], keys, t);
      assert forall i :: 1 <= i < |names| ==> names[i] == names[1..][i - 1];
      r
  }

  /**
   * The table a name in a statement refers to.  SQLite compares table names
   * ignoring ASCII case, so `DELETE FROM sessions` reaches a table created as
   * `Sessions`.
   */
  function Resolve(db: Db, t: string): (r: Option<string>)
    ensures r.Some? ==> r.value in db.tables && Lower(r.value) == Lower(t)
    ensures t in db.tables ==> r == Some(t)
    ensures r.None? <==> t !in db.tables
                         && forall i :: 0 <= i < |db.names| && db.names[i] in db.tables ==> Lower(db.names[i]) != Lower(t)
  {
    if t in db.tables then Some(t) else CaseMatch(db.names, db.tables.Keys, t)
  }

  /** `sqlite_master` lists every table, and no two names differ by ASCII case alone, as SQLite guarantees. */
  predicate CaseDistinct(db: Db)
  {
    (forall u :: u in db.tables ==> u in db.names)
    && forall u, v :: u in db.tables && v in db.tables && Lower(u) == Lower(v) ==> u == v
  }

  /** In a database SQLite could hold, a name reaches exactly the table that equals it ignoring case. */
  lemma ResolveIgnoresCase(db: Db, t: string, u: string)
    requires CaseDistinct(db) && u in db.tables
    ensures Resolve(db, t) == Some(u) <==> Lower(u) == Lower(t)
  {
    if Lower(u) == Lower(t) {
      var i :| 0 <= i < |db.names| && db.names[i] == u;
    }
  }

  /** Some name of `ts` reaches table `u`. */
  predicate Reaches(db: Db, ts: seq<string>, u: string)
  {
    exists t :: t in ts && Resolve(db, t) == Some(u)
  }

  /** Deleting rows changes no name and no table, so every name reaches the same table as before. */
  lemma ResolveShrunk(a: Db, b: Db, t: string)
    requires Shrunk(a, b)
    ensures Resolve(b, t) == Resolve(a, t)
  {
    assert b.tables.Keys == a.tables.Keys;
    assert (t in b.tables) == (t in a.tables);
  }

  lemma ReachesSnoc(db: Db, ts: seq<string>, u: string)
    requires ts != []
    ensures Reaches(db, ts, u) <==> Reaches(db, ts[..|ts| - 1], u) || Resolve(db, ts[|ts| - 1]) == Some(u)
  {
    var init := ts[..|ts| - 1];
    assert ts == init + [ts[|ts| - 1]];
    if Reaches(db, ts, u) {
      var t :| t in ts && Resolve(db, t) == Some(u);
      if t != ts[|ts| - 1] {
        assert t in init;
      }
    }
    if Reaches(db, init, u) {
      var t :| t in init && Resolve(db, t) == Some(u);
      assert t in ts;
    }
  }

  /** The outcome of a DELETE: its `rowcount`, or the error it raises. */
  function DeleteResult(isDatabase: bool, db: Db, t: string, w: Where): (r: Exec)
    ensures r.Done? <==> isDatabase && Resolve(db, t).Some?
    ensures r.Done? ==> var tb := db.tables[Resolve(db, t).value];
      r.count + |Keep(tb.columns, tb.rows, w)| == |tb.rows|
    ensures r == Failed(NoSuchTable) <==> isDatabase && Resolve(db, t).None?
  {
    if !isDatabase then Failed(NotADatabase)
    else match Resolve(db, t)
      case None => Failed(NoSuchTable)
      case Some(u) =>
        var tb := db.tables[u];
        Done(|tb.rows| - |Keep(tb.columns, tb.rows, w)|)
  }

  /**
   * What a run of statements did: the rows it deleted, the resulting
   * contents, and whether a DELETE ran (Python's sqlite3 opens a
   * transaction before the first one).
   */
  datatype Effect = Effect(count: nat, db: Db, began: bool)

  function Untouched(db: Db): Effect
  {
    Effect(0, db, false)
  }

  /** `first`, then `second` on what `first` left. */
  function Then(first: Effect, second: Effect): Effect
  {
    Effect(first.count + second.count, second.db, first.began || second.began)
  }

  /** One DELETE; a statement that fails changes nothing. */
  function DeleteEffect(isDatabase: bool, db: Db, t: string, w: Where): (e: Effect)
    ensures Shrunk(db, e.db)
    ensures e.began <==> isDatabase && Resolve(db, t).Some?
    ensures !(isDatabase && Resolve(db, t).Some?) ==> e == Untouched(db)
    ensures isDatabase && Resolve(db, t).Some? ==> e.db == Deleting(db, Resolve(db, t).value, w)
  {
    match DeleteResult(isDatabase, db, t, w)
    case Done(n) => Effect(n, Deleting(db, Resolve(db, t).value, w), true)
    case Failed(_) => Untouched(db)
  }

  /** The sqlite3 connection `clean_database` opens; DELETE changes its contents in place. */
  class Connection {
    /** Whether the file holds an SQLite database at all. */
    const isDatabase: bool
    /** The committed contents of the file. */
    var saved: Db
    /** The contents as this connection sees them, its open transaction included. */
    var db: Db
    var inTransaction: bool

    constructor (isDatabase: bool, contents: Db)
      ensures this.isDatabase == isDatabase && saved == contents && db == contents && !inTransaction
    {
      this.isDatabase := isDatabase;
      saved := contents;
      db := contents;
      inTransaction := false;
    }

    /** `cursor.execute("DELETE FROM t WHERE w")`. */
    method Delete(t: string, w: Where) returns (r: Exec)
      modifies this
      ensures r == DeleteResult(isDatabase, old(db), t, w)
      ensures db == DeleteEffect(isDatabase, old(db), t, w).db
      ensures inTransaction == (old(inTransaction) || DeleteEffect(isDatabase, old(db), t, w).began)
      ensures saved == old(saved)
    {
      r := DeleteResult(isDatabase, db, t, w);
      if r.Done? {
        db := Deleting(db, Resolve(db, t).value, w);
        inTransaction := true;
      }
    }

    /** `conn.commit()`. */
    method Commit()
      modifies this
      ensures saved == old(db) && db == old(db) && !inTransaction
    {
      saved := db;
      inTransaction := false;
    }

    /** The rollback of leaving the `with` block by an exception. */
    method Rollback()
      modifies this
      ensures saved == old(saved) && db == old(saved) && !inTransaction
    {
      db := saved;
      inTransaction := false;
    }

    /** `VACUUM`, which SQLite refuses inside a transaction. */
    method Vacuum() returns (ok: bool)
      ensures ok <==> isDatabase && !inTransaction
    {
      ok := isDatabase && !inTransaction;
    }
  }

  // ------------------------------------------------------- keyword removal

  /** Some text column of the row contains the keyword, ignoring ASCII case. */
  predicate HasKeyword(cols: seq<Column>, x: Row, keyword: string)
  {
    exists j :: 0 <= j < |cols| && IsTextType(cols[j].declType)
      && AsText(Cell(x, j)).Some? && ContainsCI(AsText(Cell(x, j)).value, keyword)
  }

  /** The clause of `_delete_records_with_keyword` and `_search_table_for_keyword`. */
  function KeywordClause(cols: seq<Column>, keyword: string): Where
  {
    AnyLike(TextColumnNames(cols), Wrapped(keyword))
  }

  /** The LIKE clause over the text columns selects exactly the rows with the keyword. */
  lemma KeywordClauseSelects(cols: seq<Column>, x: Row, keyword: string)
    requires DistinctNames(cols) && NoWildcards(keyword)
    ensures Selected(cols, x, KeywordClause(cols, keyword)) <==> HasKeyword(cols, x, keyword)
  {
    var texts := TextColumnNames(cols);
    if Selected(cols, x, KeywordClause(cols, keyword)) {
      var k :| 0 <= k < |cols| && cols[k].name in texts && LikeValue(Cell(x, k), Wrapped(keyword));
      TextColumnAt(cols, k);
      LikeContains(AsText(Cell(x, k)).value, keyword);
    }
    if HasKeyword(cols, x, keyword) {
      var j :| 0 <= j < |cols| && IsTextType(cols[j].declType)
        && AsText(Cell(x, j)).Some? && ContainsCI(AsText(Cell(x, j)).value, keyword);
      TextColumnAt(cols, j);
      LikeContains(AsText(Cell(x, j)).value, keyword);
    }
  }

  /**
   * `_delete_records_with_keyword`: a table without text columns (or one
   * that does not exist) is left alone and reports 0; a file that is no
   * database fails at PRAGMA and reports 0.
   */
  function KeywordDelete(isDatabase: bool, db: Db, t: string, keyword: string): (e: Effect)
    ensures Shrunk(db, e.db)
  {
    if !isDatabase || Resolve(db, t).None? || TextColumnNames(db.tables[Resolve(db, t).value].columns) == [] then Untouched(db)
    else DeleteEffect(isDatabase, db, t, KeywordClause(db.tables[Resolve(db, t).value].columns, keyword))
  }

  /**
   * A keyword DELETE keeps exactly the rows in which no text column contains
   * the keyword, reports how many it removed, and leaves the other tables as
   * they were.  It works on the table the name reaches.
   */
  lemma KeywordDeleteExact(db: Db, t: string, keyword: string, x: Row)
    requires Resolve(db, t).Some? && DistinctNames(db.tables[Resolve(db, t).value].columns) && NoWildcards(keyword)
    ensures var u := Resolve(db, t).value;
      var tb := db.tables[u];
      var e := KeywordDelete(true, db, t, keyword);
      (x in e.db.tables[u].rows <==> x in tb.rows && !HasKeyword(tb.columns, x, keyword))
      && e.count + |e.db.tables[u].rows| == |tb.rows|
      && (forall v :: v in db.tables && v != u ==> e.db.tables[v] == db.tables[v])
  {
    var tb := db.tables[Resolve(db, t).value];
    var texts := TextColumnNames(tb.columns);
    KeywordClauseSelects(tb.columns, x, keyword);
    if texts == [] {
      if HasKeyword(tb.columns, x, keyword) {
        var j :| 0 <= j < |tb.columns| && IsTextType(tb.columns[j].declType)
          && AsText(Cell(x, j)).Some? && ContainsCI(AsText(Cell(x, j)).value, keyword);
        TextColumnAt(tb.columns, j);
      }
    } else {
      KeepMembers(tb.columns, tb.rows, KeywordClause(tb.columns, keyword), x);
    }
  }

  /** No row left in table `t` has the keyword in a text column. */
  predicate NoKeywordLeft(db: Db, t: string, keyword: string)
  {
    t in db.tables ==> forall x :: x in db.tables[t].rows ==> !HasKeyword(db.tables[t].columns, x, keyword)
  }

  /** Every table's columns have distinct names, as SQLite guarantees. */
  predicate WellFormed(db: Db)
  {
    forall u :: u in db.tables ==> DistinctNames(db.tables[u].columns)
  }

  /** The loop of `_remove_augment_records` over its tables, in order. */
  function KeywordDeletes(isDatabase: bool, db: Db, ts: seq<string>, keyword: string): (e: Effect)
    ensures Shrunk(db, e.db)
  {
    if ts == [] then Untouched(db)
    else
      var e := KeywordDeletes(isDatabase, db, ts[..|ts| - 1], keyword);
      Then(e, KeywordDelete(isDatabase, e.db, ts[|ts| - 1], keyword))
  }

  lemma NoKeywordLeftShrunk(a: Db, b: Db, t: string, keyword: string)
    requires Shrunk(a, b) && NoKeywordLeft(a, t, keyword)
    ensures NoKeywordLeft(b, t, keyword)
  {
  }

  /**
   * After the loop no table a listed name reaches keeps a row with the
   * keyword in a text column, and every table no listed name reaches is
   * unchanged.
   */
  lemma {:induction false} KeywordDeletesClear(db: Db, ts: seq<string>, keyword: string)
    requires WellFormed(db) && NoWildcards(keyword)
    ensures var e := KeywordDeletes(true, db, ts, keyword);
      (forall t :: t in ts && Resolve(db, t).Some? ==> NoKeywordLeft(e.db, Resolve(db, t).value, keyword))
      && (forall u :: u in db.tables && !Reaches(db, ts, u) ==> e.db.tables[u] == db.tables[u])
  {
    if ts != [] {
      var init := ts[..|ts| - 1];
      var last := ts[|ts| - 1];
      KeywordDeletesClear(db, init, keyword);
      var e0 := KeywordDeletes(true, db, init, keyword);
      var e := KeywordDeletes(true, db, ts, keyword);
      assert e.db == KeywordDelete(true, e0.db, last, keyword).db;
      assert WellFormed(e0.db);
      ResolveShrunk(db, e0.db, last);
      forall t | t in ts && Resolve(db, t).Some? ensures NoKeywordLeft(e.db, Resolve(db, t).value, keyword) {
        var u := Resolve(db, t).value;
        if t == last {
          forall x | x in e.db.tables[u].rows ensures !HasKeyword(e.db.tables[u].columns, x, keyword) {
            KeywordDeleteExact(e0.db, t, keyword, x);
          }
        } else {
          assert t in init;
          NoKeywordLeftShrunk(e0.db, e.db, u, keyword);
        }
      }
      forall u | u in db.tables && !Reaches(db, ts, u) ensures e.db.tables[u] == db.tables[u] {
        ReachesSnoc(db, ts, u);
        if Resolve(db, last).Some? {
          KeywordDeleteExact(e0.db, last, keyword, Row(0, []));
        }
      }
    }
  }

  // ---------------------------------------------------------------- search

  /** One record of `_search_table_for_keyword`: table, rowid, the row's values, matching columns. */
  datatype Record = Record(table: string, rowid: int, data: seq<Value>, matchingColumns: seq<string>)

  /** The columns a record names: text columns whose value is truthy and contains the keyword. */
  function MatchingColumns(cols: seq<Column>, texts: seq<string>, x: Row, keyword: string): (r: seq<string>)
    ensures |r| <= |cols|
  {
    if cols == [] then []
    else
      var k := |cols| - 1;
      var rest := MatchingColumns(cols[..k], texts, x, keyword);
      var v := Cell(x, k);
      if cols[k].name in texts && Truthy(v) && ContainsCI(AsText(v).value, keyword)
      then rest + [cols[k].name] else rest
  }

  /** A row with one qualifying column gets a non-empty list. */
  lemma {:induction false} MatchingColumnsNonEmpty(cols: seq<Column>, texts: seq<string>, x: Row, keyword: string, j: nat)
    requires j < |cols| && cols[j].name in texts && Truthy(Cell(x, j))
    requires ContainsCI(AsText(Cell(x, j)).value, keyword)
    ensures MatchingColumns(cols, texts, x, keyword) != []
  {
    var k := |cols| - 1;
    if j < k {
      assert cols[..k][j] == cols[j];
      MatchingColumnsNonEmpty(cols[..k], texts, x, keyword, j);
    }
  }

  /**
   * `_search_table_for_keyword`: one record per row the LIKE query returns;
   * nothing when the file is no database or the name reaches no table
   * (PRAGMA or SELECT raise, and the error is caught).
   */
  function SearchTable(isDatabase: bool, db: Db, t: string, keyword: string): (r: seq<Record>)
    ensures !isDatabase || Resolve(db, t).None? ==> r == []
    ensures forall i :: 0 <= i < |r| ==> r[i].table == t
  {
    if !isDatabase || Resolve(db, t).None? || TextColumnNames(db.tables[Resolve(db, t).value].columns) == [] then []
    else
      var tb := db.tables[Resolve(db, t).value];
      RowRecords(t, tb.columns, Matching(tb.columns, tb.rows, KeywordClause(tb.columns, keyword)), keyword)
  }

  /** One record per selected row, carrying the table name as given and the row's matching columns. */
  function RowRecords(t: string, cols: seq<Column>, rows: seq<Row>, keyword: string): (r: seq<Record>)
    ensures |r| == |rows|
    ensures forall i :: 0 <= i < |rows| ==> r[i].table == t && r[i].rowid == rows[i].rowid && r[i].data == rows[i].values
  {
    var texts := TextColumnNames(cols);
    seq(|rows|, i requires 0 <= i < |rows| =>
      Record(t, rows[i].rowid, rows[i].values, MatchingColumns(cols, texts, rows[i], keyword)))
  }

  /** The search finds as many rows as the keyword DELETE on the same name removes. */
  lemma SearchTableCount(isDatabase: bool, db: Db, t: string, keyword: string)
    ensures |SearchTable(isDatabase, db, t, keyword)| == KeywordDelete(isDatabase, db, t, keyword).count
  {
    if isDatabase && Resolve(db, t).Some? {
      var tb := db.tables[Resolve(db, t).value];
      if TextColumnNames(tb.columns) != [] {
        var w := KeywordClause(tb.columns, keyword);
        assert |Matching(tb.columns, tb.rows, w)| + |Keep(tb.columns, tb.rows, w)| == |tb.rows|;
      }
    }
  }

  /** A keyword of letters only. */
  predicate Word(keyword: string)
  {
    keyword != [] && forall i :: 0 <= i < |keyword| ==> IsLetter(keyword[i])
  }

  /** A string without letters (such as `str` of an integer) contains no word. */
  lemma NoLettersNoWord(s: string, keyword: string)
    requires Word(keyword) && forall i :: 0 <= i < |s| ==> !IsLetter(s[i])
    ensures !ContainsCI(s, keyword)
  {
    forall i | 0 <= i && i + |keyword| <= |s| ensures !OccursAt(Lower(s), Lower(keyword), i) {
      assert Lower(s)[i..i + |keyword|][0] == LowerChar(s[i]);
      assert !IsLetter(LowerChar(s[i]));
      assert IsLetter(Lower(keyword)[0]);
    }
  }

  lemma IntegerTextHasNoLetters(n: int)
    ensures var s := IntToString(n); forall i :: 0 <= i < |s| ==> !IsLetter(s[i])
  {
    var s := IntToString(n);
    if n < 0 {
      var d := NatToString(-n);
      forall i | 0 <= i < |s| ensures !IsLetter(s[i]) {
        if i > 0 {
          assert s[i] == d[i - 1];
        }
      }
    }
  }

  /**
   * For a keyword of letters (such as `augment`), every record the search
   * returns names at least one matching column: the Python re-check agrees
   * with the LIKE query.
   */
  lemma SearchRecordsNameColumns(db: Db, t: string, keyword: string, i: nat)
    requires WellFormed(db) && Word(keyword)
    requires i < |SearchTable(true, db, t, keyword)|
    ensures SearchTable(true, db, t, keyword)[i].matchingColumns != []
  {
    var tb := db.tables[Resolve(db, t).value];
    var cols := tb.columns;
    var texts := TextColumnNames(cols);
    var rows := Matching(cols, tb.rows, KeywordClause(cols, keyword));
    var x := rows[i];
    assert x in rows;
    var k :| 0 <= k < |cols| && cols[k].name in texts && LikeValue(Cell(x, k), Wrapped(keyword));
    var v := Cell(x, k);
    assert NoWildcards(keyword) by {
      assert forall j :: 0 <= j < |keyword| ==> IsLetter(keyword[j]);
    }
    LikeContains(AsText(v).value, keyword);
    if v.Integer? {
      IntegerTextHasNoLetters(v.n);
      NoLettersNoWord(AsText(v).value, keyword);
    }
    MatchingColumnsNonEmpty(cols, texts, x, keyword, k);
  }

  /** The tables `search_for_augment_records` searches: those given, else the analysis' cleanup targets. */
  function SearchedTables(isDatabase: bool, file: Db, tables: Option<seq<string>>): seq<string>
  {
    if tables.Some? then tables.value else NamesOf(AnalysisOf(isDatabase, file).targets)
  }

  /** The records `search_for_augment_records` collects, table after table. */
  function SearchedRecords(isDatabase: bool, db: Db, ts: seq<string>, keyword: string): (r: seq<Record>)
    ensures forall i :: 0 <= i < |r| ==> r[i].table in ts
  {
    if ts == [] then []
    else
      var front := SearchedRecords(isDatabase, db, ts[..|ts| - 1], keyword);
      assert forall i :: 0 <= i < |front| ==> front[i].table in ts by {
        forall i | 0 <= i < |front| ensures front[i].table in ts {
          var t := front[i].table;
          var j :| 0 <= j < |ts| - 1 && ts[..|ts| - 1][j] == t;
          assert ts[j] == t;
        }
      }
      front + SearchTable(isDatabase, db, ts[|ts| - 1], keyword)
  }

  /** One more table adds its own records after those of the tables before it. */
  lemma SearchedRecordsSnoc(isDatabase: bool, db: Db, ts: seq<string>, i: nat, keyword: string)
    requires i < |ts|
    ensures SearchedRecords(isDatabase, db, ts[..i + 1], keyword)
      == SearchedRecords(isDatabase, db, ts[..i], keyword) + SearchTable(isDatabase, db, ts[i], keyword)
  {
    TakeTake(ts, i + 1, i);
  }

  /**
   * For a keyword of letters, every record the whole search returns names at
   * least one matching column.
   */
  lemma {:induction false} SearchedRecordsNameColumns(db: Db, ts: seq<string>, keyword: string, i: nat)
    requires WellFormed(db) && Word(keyword)
    requires i < |SearchedRecords(true, db, ts, keyword)|
    ensures SearchedRecords(true, db, ts, keyword)[i].matchingColumns != []
    decreases |ts|
  {
    var n := |ts| - 1;
    SearchedRecordsSnoc(true, db, ts, n, keyword);
    assert ts[..n + 1] == ts;
    var front := SearchedRecords(true, db, ts[..n], keyword);
    var last := SearchTable(true, db, ts[n], keyword);
    if i < |front| {
      SearchedRecordsNameColumns(db, ts[..n], keyword, i);
      assert (front + last)[i] == front[i];
    } else {
      SearchRecordsNameColumns(db, ts[n], keyword, i - |front|);
      assert (front + last)[i] == last[i - |front|];
    }
  }

  /**
   * The search finds as many records as the keyword DELETE removes from each
   * table, counted on the same contents.
   */
  lemma {:induction false} SearchedRecordsCount(isDatabase: bool, db: Db, ts: seq<string>, keyword: string, n: nat)
    requires n <= |ts|
    ensures |SearchedRecords(isDatabase, db, ts[..n], keyword)| == KeywordCounts(isDatabase, db, ts[..n], keyword)
    decreases n
  {
    if n > 0 {
      assert ts[..n][..n - 1] == ts[..n - 1];
      SearchedRecordsCount(isDatabase, db, ts, keyword, n - 1);
      SearchTableCount(isDatabase, db, ts[..n][n - 1], keyword);
    }
  }

  /** The rows a keyword DELETE would remove from each table of `ts`, each counted on `db` itself. */
  function KeywordCounts(isDatabase: bool, db: Db, ts: seq<string>, keyword: string): nat
  {
    if ts == [] then 0
    else KeywordCounts(isDatabase, db, ts[..|ts| - 1], keyword) + KeywordDelete(isDatabase, db, ts[|ts| - 1], keyword).count
  }

  // --------------------------------------------------- account-table clean

  const EmailMarkers: seq<string> := ["email", "mail", "e_mail"]

  /** A column `_clean_account_table` treats as an e-mail column. */
  predicate IsEmailColumn(name: string)
  {
    ContainsAny(Lower(name), EmailMarkers)
  }

  /** All three markers contain `mail`, so the rule is: the lowered name contains `mail`. */
  lemma EmailColumnRule(name: string)
    ensures IsEmailColumn(name) <==> Contains(Lower(name), "mail")
  {
    var l := Lower(name);
    assert EmailMarkers[1] == "mail";
    if IsEmailColumn(name) {
      var k :| 0 <= k < |EmailMarkers| && Contains(l, EmailMarkers[k]);
      if k == 0 {
        assert OccursAt("email", "mail", 1);
        ContainsTrans(l, "email", "mail");
      } else if k == 2 {
        assert OccursAt("e_mail", "mail", 2);
        ContainsTrans(l, "e_mail", "mail");
      }
    }
  }

  /** `email_columns`, in column order. */
  function EmailColumnNames(cols: seq<Column>): (r: seq<string>)
    ensures |r| <= |cols|
  {
    if cols == [] then []
    else
      var rest := EmailColumnNames(cols[..|cols| - 1]);
      var c := cols[|cols| - 1];
      if IsEmailColumn(c.name) then rest + [c.name] else rest
  }

  lemma {:induction false} EmailColumnNamesMembers(cols: seq<Column>, n: string)
    ensures n in EmailColumnNames(cols) <==> IsEmailColumn(n) && exists k :: 0 <= k < |cols| && cols[k].name == n
  {
    if cols != [] {
      var init := cols[..|cols| - 1];
      EmailColumnNamesMembers(init, n);
      if exists k :: 0 <= k < |init| && init[k].name == n {
        var k :| 0 <= k < |init| && init[k].name == n;
        assert cols[k] == init[k];
      }
      if exists k :: 0 <= k < |cols| && cols[k].name == n {
        var k :| 0 <= k < |cols| && cols[k].name == n;
        if k < |init| {
          assert init[k] == cols[k];
        }
      }
    }
  }

  /** `DELETE FROM t WHERE c = target` for each e-mail column `c` in turn. */
  function EmailDeletes(isDatabase: bool, db: Db, t: string, names: seq<string>, target: string): (e: Effect)
    ensures Shrunk(db, e.db)
  {
    if names == [] then Untouched(db)
    else
      var e := EmailDeletes(isDatabase, db, t, names[..|names| - 1], target);
      Then(e, DeleteEffect(isDatabase, e.db, t, Equals(names[|names| - 1], target)))
  }

  lemma EmailDeletesSnoc(db: Db, t: string, names: seq<string>, j: nat, target: string)
    requires j < |names|
    ensures var e := EmailDeletes(true, db, t, names[..j], target);
      EmailDeletes(true, db, t, names[..j + 1], target) == Then(e, DeleteEffect(true, e.db, t, Equals(names[j], target)))
  {
    TakeTake(names, j + 1, j);
  }

  /** Some column named in `names` holds exactly the target. */
  predicate EqualsSome(cols: seq<Column>, x: Row, names: seq<string>, target: string)
  {
    exists k :: 0 <= k < |cols| && cols[k].name in names && Cell(x, k) == Text(target)
  }

  /** The per-column deletes together keep exactly the rows where no named column equals the target. */
  lemma {:induction false} EmailDeletesKeep(db: Db, t: string, names: seq<string>, target: string, x: Row)
    requires t in db.tables
    ensures var tb := db.tables[t];
      var e := EmailDeletes(true, db, t, names, target);
      (x in e.db.tables[t].rows <==> x in tb.rows && !EqualsSome(tb.columns, x, names, target))
      && e.count + |e.db.tables[t].rows| == |tb.rows|
      && (forall u :: u in db.tables && u != t ==> e.db.tables[u] == db.tables[u])
  {
    var tb := db.tables[t];
    var cols := tb.columns;
    if names == [] {
    } else {
      var init := names[..|names| - 1];
      var n := names[|names| - 1];
      EmailDeletesKeep(db, t, init, target, x);
      var e0 := EmailDeletes(true, db, t, init, target);
      assert e0.db.tables[t].columns == cols;
      KeepMembers(cols, e0.db.tables[t].rows, Equals(n, target), x);
      if EqualsSome(cols, x, names, target) {
        var k :| 0 <= k < |cols| && cols[k].name in names && Cell(x, k) == Text(target);
        if cols[k].name != n {
          assert cols[k].name in init;
        }
      }
      if EqualsSome(cols, x, init, target) {
        var k :| 0 <= k < |cols| && cols[k].name in init && Cell(x, k) == Text(target);
        assert cols[k].name in names;
      }
    }
  }

  /**
   * `_clean_account_table`: with a target and some e-mail column, delete the
   * rows where an e-mail column equals the target; otherwise delete every
   * row.  A missing table fails at DELETE and reports 0.
   */
  function AccountTableClean(isDatabase: bool, db: Db, t: string, target: string): (e: Effect)
    ensures Shrunk(db, e.db)
  {
    if !isDatabase then Untouched(db)
    else
      var emails := EmailColumnNames(ColumnsOf(db, t));
      if target != [] && emails != [] then EmailDeletes(isDatabase, db, t, emails, target)
      else DeleteEffect(isDatabase, db, t, Everything)
  }

  /** Some e-mail column of the row holds exactly the target. */
  predicate HoldsTarget(cols: seq<Column>, x: Row, target: string)
  {
    exists k :: 0 <= k < |cols| && IsEmailColumn(cols[k].name) && Cell(x, k) == Text(target)
  }

  predicate HasEmailColumn(cols: seq<Column>)
  {
    exists k :: 0 <= k < |cols| && IsEmailColumn(cols[k].name)
  }

  lemma {:induction false} KeepEverything(cols: seq<Column>, rows: seq<Row>)
    ensures Keep(cols, rows, Everything) == []
  {
    if rows != [] {
      KeepEverything(cols, rows[..|rows| - 1]);
    }
  }

  /**
   * With a target and an e-mail column, an account table keeps exactly the
   * rows whose e-mail columns all differ from the target; otherwise it is
   * emptied.  The count is what was removed, and other tables are untouched.
   */
  lemma AccountTableCleanExact(db: Db, t: string, target: string, x: Row)
    requires t in db.tables
    ensures var tb := db.tables[t];
      var e := AccountTableClean(true, db, t, target);
      (target != [] && HasEmailColumn(tb.columns) ==>
         (x in e.db.tables[t].rows <==> x in tb.rows && !HoldsTarget(tb.columns, x, target)))
      && (!(target != [] && HasEmailColumn(tb.columns)) ==> e.db.tables[t].rows == [])
      && e.count + |e.db.tables[t].rows| == |tb.rows|
      && (forall u :: u in db.tables && u != t ==> e.db.tables[u] == db.tables[u])
  {
    var tb := db.tables[t];
    var cols := tb.columns;
    var emails := EmailColumnNames(cols);
    if HasEmailColumn(cols) {
      var k :| 0 <= k < |cols| && IsEmailColumn(cols[k].name);
      EmailColumnNamesMembers(cols, cols[k].name);
    }
    if emails != [] {
      EmailColumnNamesMembers(cols, emails[0]);
    }
    if target != [] && emails != [] {
      EmailDeletesKeep(db, t, emails, target, x);
      if EqualsSome(cols, x, emails, target) {
        var k :| 0 <= k < |cols| && cols[k].name in emails && Cell(x, k) == Text(target);
        EmailColumnNamesMembers(cols, cols[k].name);
      }
      if HoldsTarget(cols, x, target) {
        var k :| 0 <= k < |cols| && IsEmailColumn(cols[k].name) && Cell(x, k) == Text(target);
        EmailColumnNamesMembers(cols, cols[k].name);
      }
    } else {
      KeepEverything(cols, tb.rows);
    }
  }

  // ---------------------------------------------------------- e-mail sweep

  /** `text_columns` of `_remove_email_references`: the columns whose value in the first row is a string. */
  function SampledTextColumns(cols: seq<Column>, rows: seq<Row>): (r: seq<string>)
    ensures |r| <= |cols|
    ensures rows == [] ==> r == []
  {
    if cols == [] then []
    else
      var k := |cols| - 1;
      var rest := SampledTextColumns(cols[..k], rows);
      if rows != [] && Cell(rows[0], k).Text? then rest + [cols[k].name] else rest
  }

  lemma SampledTextColumnsSnoc(cols: seq<Column>, rows: seq<Row>, k: nat)
    requires k < |cols|
    ensures SampledTextColumns(cols[..k + 1], rows) == SampledTextColumns(cols[..k], rows)
      + (if rows != [] && Cell(rows[0], k).Text? then [cols[k].name] else [])
  {
    TakeTake(cols, k + 1, k);
  }

  /** One table of `_remove_email_references`: delete the rows where a sampled column is LIKE the e-mail. */
  function EmailReferenceDelete(isDatabase: bool, db: Db, t: string, email: string): (e: Effect)
    ensures Shrunk(db, e.db)
  {
    if !isDatabase || t !in db.tables then Untouched(db)
    else
      var texts := SampledTextColumns(db.tables[t].columns, db.tables[t].rows);
      if texts == [] then Untouched(db) else DeleteEffect(isDatabase, db, t, AnyLike(texts, Wrapped(email)))
  }

  /** `_remove_email_references` over its tables, in order. */
  function EmailReferenceDeletes(isDatabase: bool, db: Db, ts: seq<string>, email: string): (e: Effect)
    ensures Shrunk(db, e.db)
  {
    if ts == [] then Untouched(db)
    else
      var e := EmailReferenceDeletes(isDatabase, db, ts[..|ts| - 1], email);
      Then(e, EmailReferenceDelete(isDatabase, e.db, ts[|ts| - 1], email))
  }

  lemma EmailReferenceDeletesSnoc(isDatabase: bool, db: Db, ts: seq<string>, i: nat, email: string)
    requires i < |ts|
    ensures var e := EmailReferenceDeletes(isDatabase, db, ts[..i], email);
      EmailReferenceDeletes(isDatabase, db, ts[..i + 1], email) == Then(e, EmailReferenceDelete(isDatabase, e.db, ts[i], email))
  {
    TakeTake(ts, i + 1, i);
  }

  /**
   * LIKE reads `_` in an e-mail as "any one character": sweeping for
   * `a_b` also deletes a row holding `axb`, which does not contain it.
   */
  lemma UnderscoreMatchesAnyCharacter(email: string, text: string)
    requires email == "a_b" && text == "axb"
    ensures Like(text, Wrapped(email)) && !Contains(text, email)
  {
    assert Wrapped(email) == "%a_b%";
    assert Like("", "%") by { LikeAnything(""); }
    assert Like("b", "b%");
    assert Like("xb", "_b%");
    assert Like("axb", "a_b%");
    assert Like("axb", "%a_b%");
    assert !OccursAt(text, email, 0);
  }

  // ---------------------------------------------------------- account data

  const AccountTablePatterns: seq<string> :=
    ["account", "user", "profile", "login", "auth", "credential", "identity", "member", "person", "contact"]

  predicate IsAccountTable(name: string)
  {
    ContainsAny(Lower(name), AccountTablePatterns)
  }

  /** `account_tables`: the listed tables whose lowered name contains an account pattern. */
  function AccountTables(names: seq<string>): (r: seq<string>)
    ensures |r| <= |names|
    ensures forall u :: u in r <==> u in names && IsAccountTable(u)
  {
    if names == [] then []
    else
      var rest := AccountTables(names[..|names| - 1]);
      var u := names[|names| - 1];
      assert names == names[..|names| - 1] + [u];
      if IsAccountTable(u) then rest + [u] else rest
  }

  /** The account-table loop of `_remove_account_data`. */
  function AccountTableCleans(isDatabase: bool, db: Db, ts: seq<string>, target: string): (e: Effect)
    ensures Shrunk(db, e.db)
  {
    if ts == [] then Untouched(db)
    else
      var e := AccountTableCleans(isDatabase, db, ts[..|ts| - 1], target);
      Then(e, AccountTableClean(isDatabase, e.db, ts[|ts| - 1], target))
  }

  /** One more table of the loop. */
  lemma AccountTableCleansSnoc(db: Db, ts: seq<string>, j: int, target: string)
    requires 0 <= j < |ts|
    ensures var e := AccountTableCleans(true, db, ts[..j], target);
      AccountTableCleans(true, db, ts[..j + 1], target) == Then(e, AccountTableClean(true, e.db, ts[j], target))
  {
    TakeTake(ts, j + 1, j);
  }

  /** A sub-step's boolean result and what it did. */
  datatype Step = Step(ok: bool, effect: Effect)

  /**
   * `_remove_account_data`: clean every account table, then, only for a
   * non-empty target, sweep all tables for it.  A file that is no database
   * fails at the table listing and returns false.
   */
  function AccountDataRemoval(isDatabase: bool, db: Db, target: string): (s: Step)
    ensures s.ok == isDatabase
    ensures Shrunk(db, s.effect.db)
  {
    if !isDatabase then Step(false, Untouched(db))
    else
      var e := AccountTableCleans(isDatabase, db, AccountTables(db.names), target);
      if target == [] then Step(true, e)
      else Step(true, Then(e, EmailReferenceDeletes(isDatabase, e.db, db.names, target)))
  }

  /** `DELETE FROM t` for each name in turn; a missing table is skipped. */
  function DeleteAlls(db: Db, ts: seq<string>): (e: Effect)
    ensures Shrunk(db, e.db)
  {
    if ts == [] then Untouched(db)
    else
      var e := DeleteAlls(db, ts[..|ts| - 1]);
      Then(e, DeleteEffect(true, e.db, ts[|ts| - 1], Everything))
  }

  lemma DeleteAllsSnoc(db: Db, ts: seq<string>, i: nat)
    requires i < |ts|
    ensures var e := DeleteAlls(db, ts[..i]);
      DeleteAlls(db, ts[..i + 1]) == Then(e, DeleteEffect(true, e.db, ts[i], Everything))
  {
    TakeTake(ts, i + 1, i);
  }

  /**
   * Each table some name reaches ends empty; every other table is unchanged;
   * a DELETE ran iff some name reached a table.
   */
  lemma {:induction false} DeleteAllsOnly(db: Db, ts: seq<string>)
    ensures var e := DeleteAlls(db, ts);
      (forall u :: u in db.tables && Reaches(db, ts, u) ==> e.db.tables[u].rows == [])
      && (forall u :: u in db.tables && !Reaches(db, ts, u) ==> e.db.tables[u] == db.tables[u])
      && (e.began <==> exists t :: t in ts && Resolve(db, t).Some?)
  {
    if ts != [] {
      var init := ts[..|ts| - 1];
      var last := ts[|ts| - 1];
      assert ts == init + [last];
      DeleteAllsOnly(db, init);
      var e0 := DeleteAlls(db, init);
      var e := DeleteAlls(db, ts);
      assert e == Then(e0, DeleteEffect(true, e0.db, last, Everything));
      ResolveShrunk(db, e0.db, last);
      var r := Resolve(db, last);
      if r.Some? {
        var tb := e0.db.tables[r.value];
        KeepEverything(tb.columns, tb.rows);
        assert e.db == Deleting(e0.db, r.value, Everything);
      } else {
        assert e.db == e0.db;
      }
      forall u | u in db.tables
        ensures Reaches(db, ts, u) ==> e.db.tables[u].rows == []
        ensures !Reaches(db, ts, u) ==> e.db.tables[u] == db.tables[u]
      {
        ReachesSnoc(db, ts, u);
      }
    }
    DeleteAllsBegan(db, ts);
  }

  /** `DELETE FROM t` ran, opening a transaction, iff some name reached a table. */
  lemma {:induction false} DeleteAllsBegan(db: Db, ts: seq<string>)
    ensures DeleteAlls(db, ts).began <==> exists t :: t in ts && Resolve(db, t).Some?
  {
    if ts != [] {
      var init := ts[..|ts| - 1];
      var last := ts[|ts| - 1];
      assert ts == init + [last];
      DeleteAllsBegan(db, init);
      var e0 := DeleteAlls(db, init);
      ResolveShrunk(db, e0.db, last);
      if exists t :: t in ts && Resolve(db, t).Some? {
        var t :| t in ts && Resolve(db, t).Some?;
        if t != last {
          assert t in init;
        }
      }
      if exists t :: t in init && Resolve(db, t).Some? {
        var t :| t in init && Resolve(db, t).Some?;
        assert t in ts;
      }
    }
  }

  /** Without a target every account-table clean is a plain `DELETE FROM t`. */
  lemma {:induction false} AccountCleansWithoutTarget(db: Db, ts: seq<string>)
    ensures AccountTableCleans(true, db, ts, "") == DeleteAlls(db, ts)
  {
    if ts != [] {
      AccountCleansWithoutTarget(db, ts[..|ts| - 1]);
    }
  }

  /**
   * With an empty target, `_remove_account_data` empties exactly the account
   * tables: the e-mail sweep does not run and no other table changes.
   */
  lemma AccountRemovalWithoutTarget(db: Db)
    ensures var s := AccountDataRemoval(true, db, "");
      s.ok
      && (forall u :: u in db.tables && u in db.names && IsAccountTable(u) ==> s.effect.db.tables[u].rows == [])
      && (forall u :: u in db.tables && !(u in db.names && IsAccountTable(u)) ==> s.effect.db.tables[u] == db.tables[u])
  {
    AccountCleansWithoutTarget(db, AccountTables(db.names));
    DeleteAllsOnly(db, AccountTables(db.names));
  }

  // -------------------------------------------------------------- sessions

  const SessionTables: seq<string> := ["sessions", "session", "user_sessions", "login_sessions"]

  /**
   * `_clear_session_data`: a missing table (OperationalError) is skipped; a
   * file that is no database raises DatabaseError, which ends the call with
   * false.
   */
  function SessionClear(isDatabase: bool, db: Db): (s: Step)
    ensures s.ok == isDatabase
    ensures Shrunk(db, s.effect.db)
  {
    if !isDatabase then Step(false, Untouched(db)) else Step(true, DeleteAlls(db, SessionTables))
  }

  /**
   * Only the tables the four session names reach change, and each of them
   * ends empty.
   */
  lemma SessionClearOnly(db: Db)
    ensures var e := SessionClear(true, db).effect;
      (forall u :: u in db.tables && Reaches(db, SessionTables, u) ==> e.db.tables[u].rows == [])
      && (forall u :: u in db.tables && !Reaches(db, SessionTables, u) ==> e.db.tables[u] == db.tables[u])
  {
    DeleteAllsOnly(db, SessionTables);
  }

  /** A text without upper-case ASCII letters is its own lower-case form. */
  lemma LowerOfLowercase(s: string)
    requires forall i :: 0 <= i < |s| ==> !IsUpperAscii(s[i])
    ensures Lower(s) == s
  {
  }

  /**
   * In a database SQLite could hold, the session names reach exactly the
   * tables whose name, ignoring ASCII case, is one of them: `Sessions` and
   * `USER_SESSIONS` are cleared too.
   */
  lemma SessionTablesIgnoreCase(db: Db, u: string)
    requires CaseDistinct(db) && u in db.tables
    ensures Reaches(db, SessionTables, u) <==> Lower(u) in SessionTables
  {
    forall t | t in SessionTables ensures Lower(t) == t {
      LowerOfLowercase(t);
    }
    if Lower(u) in SessionTables {
      var t := Lower(u);
      ResolveIgnoresCase(db, t, u);
    }
    if Reaches(db, SessionTables, u) {
      var t :| t in SessionTables && Resolve(db, t) == Some(u);
      ResolveIgnoresCase(db, t, u);
    }
  }

  // -------------------------------------------------------- clean_database

  /** The options `clean_database` reads. */
  datatype CleanupOptions = CleanupOptions(
    removeAugmentRecords: bool, tablesToClean: seq<string>,
    removeAccountData: bool, targetEmail: string,
    resetTelemetryIds: bool, clearSessionData: bool)

  /** `success &= step`. */
  function And(first: Step, second: Step): Step
  {
    Step(first.ok && second.ok, Then(first.effect, second.effect))
  }

  /** The tables `_remove_augment_records` cleans: the requested ones, else the analysis' targets. */
  function AugmentTables(isDatabase: bool, file: Db, requested: seq<string>): seq<string>
  {
    if requested != [] then requested else NamesOf(AnalysisOf(isDatabase, file).targets)
  }

  /** Every keyword DELETE catches its own errors, so `_remove_augment_records` returns true. */
  function AugmentRemoval(isDatabase: bool, file: Db, db: Db, requested: seq<string>): (s: Step)
    ensures s.ok && Shrunk(db, s.effect.db)
  {
    Step(true, KeywordDeletes(isDatabase, db, AugmentTables(isDatabase, file, requested), "augment"))
  }

  lemma {:induction false} KeywordDeletesNoDatabase(db: Db, ts: seq<string>, keyword: string)
    ensures KeywordDeletes(false, db, ts, keyword) == Untouched(db)
  {
    if ts != [] {
      KeywordDeletesNoDatabase(db, ts[..|ts| - 1], keyword);
    }
  }

  /**
   * The enabled sub-steps in order, each on what the previous left, their
   * results ANDed without stopping early; the telemetry reset does nothing
   * and returns true.
   */
  function CleanSteps(isDatabase: bool, contents: Db, o: CleanupOptions): (s: Step)
    ensures Shrunk(contents, s.effect.db)
  {
    var s0 := Step(true, Untouched(contents));
    var s1 := if o.removeAugmentRecords then And(s0, AugmentRemoval(isDatabase, contents, contents, o.tablesToClean)) else s0;
    var s2 := if o.removeAccountData then And(s1, AccountDataRemoval(isDatabase, s1.effect.db, o.targetEmail)) else s1;
    var s3 := if o.resetTelemetryIds then And(s2, Step(true, Untouched(s2.effect.db))) else s2;
    if o.clearSessionData then And(s3, SessionClear(isDatabase, s3.effect.db)) else s3
  }

  /**
   * The steps succeed unless the file is no database and a step that lists
   * or deletes tables is enabled; on such a file nothing changes.
   */
  lemma CleanStepsResult(isDatabase: bool, contents: Db, o: CleanupOptions)
    ensures var s := CleanSteps(isDatabase, contents, o);
      (s.ok <==> isDatabase || (!o.removeAccountData && !o.clearSessionData))
      && (!isDatabase ==> s.effect.db == contents && !s.effect.began)
  {
    if !isDatabase {
      KeywordDeletesNoDatabase(contents, AugmentTables(false, contents, o.tablesToClean), "augment");
    }
  }

  /** What `clean_database` returns and leaves behind: its result, the disk, the database contents. */
  datatype DbOutcome = DbOutcome(ok: bool, disk: Disk, contents: Db)

  /**
   * The backup's `relative_path`: under `database`, at the file's whole path
   * (the source writes `database/<name>`, which collides for two databases
   * of one name; see `Backup.NamedDestinationsCollide`).
   */
  function DatabaseBackupRelative(path: Path): (rel: Path)
    ensures |rel| == |path| + 1 && rel[0] == "database" && rel[1..] == path
  {
    KeepingRelative("database", path)
  }

  /**
   * `clean_database` as written: the backup goes to `database/<name>`, and on
   * success it runs VACUUM while the transaction the first DELETE opened is
   * still open.  SQLite refuses, the `with` block rolls back, and the error
   * handler returns false.
   */
  function CleanDatabaseAsWritten(d: Disk, path: Path, dir: Path, o: CleanupOptions, copyOk: bool,
                                  isDatabase: bool, contents: Db): (r: DbOutcome)
    ensures !Exists(d, path) ==> r == DbOutcome(false, d, contents)
    ensures Exists(d, path) ==> r.disk == BackupFileOutcome(d, path, dir, NamedRelative("database", path), copyOk).disk
    ensures r.ok ==> Exists(d, path) && copyOk && isDatabase
  {
    if !Exists(d, path) then DbOutcome(false, d, contents)
    else
      var b := BackupFileOutcome(d, path, dir, NamedRelative("database", path), copyOk);
      if !b.ok then DbOutcome(false, b.disk, contents)
      else
        var s := CleanSteps(isDatabase, contents, o);
        if !s.ok then DbOutcome(false, b.disk, s.effect.db)
        else if isDatabase && !s.effect.began then DbOutcome(true, b.disk, s.effect.db)
        else DbOutcome(false, b.disk, contents)
  }

  /**
   * `clean_database` with the deletions committed before VACUUM: false
   * without touching the database when the file is missing or its backup
   * fails; otherwise the steps' changes are kept, and the result is true
   * exactly when every enabled step succeeded and VACUUM ran.
   */
  function CleanDatabaseOutcome(d: Disk, path: Path, dir: Path, o: CleanupOptions, copyOk: bool,
                                isDatabase: bool, contents: Db): (r: DbOutcome)
  {
    if !Exists(d, path) then DbOutcome(false, d, contents)
    else
      var b := BackupFileOutcome(d, path, dir, DatabaseBackupRelative(path), copyOk);
      if !b.ok then DbOutcome(false, b.disk, contents)
      else
        var s := CleanSteps(isDatabase, contents, o);
        DbOutcome(s.ok && isDatabase, b.disk, s.effect.db)
  }

  /**
   * The corrected call succeeds exactly when the file exists, its backup
   * copies, and it is a database; the database is touched only after a
   * successful backup, and what the steps did is what the file keeps.
   */
  lemma CleanDatabaseResult(d: Disk, path: Path, dir: Path, o: CleanupOptions, copyOk: bool,
                            isDatabase: bool, contents: Db)
    ensures var r := CleanDatabaseOutcome(d, path, dir, o, copyOk, isDatabase, contents);
      (r.ok <==> path in d.files && copyOk && isDatabase)
      && (!(path in d.files && copyOk) ==> r.contents == contents)
      && (path in d.files && copyOk ==> r.contents == CleanSteps(isDatabase, contents, o).effect.db)
      && r.disk == BackupFileOutcome(d, path, dir, DatabaseBackupRelative(path), copyOk).disk
  {
    CleanStepsResult(isDatabase, contents, o);
  }

  /**
   * As written, whenever a DELETE ran the call returns false and the file
   * keeps its original contents, although the steps succeeded.
   */
  lemma AsWrittenDiscardsDeletions(d: Disk, path: Path, dir: Path, o: CleanupOptions, copyOk: bool, contents: Db)
    requires path in d.files && copyOk
    requires CleanSteps(true, contents, o).effect.began
    ensures CleanSteps(true, contents, o).ok
    ensures var r := CleanDatabaseAsWritten(d, path, dir, o, copyOk, true, contents);
      !r.ok && r.contents == contents
  {
    CleanStepsResult(true, contents, o);
  }

  /**
   * The smallest case: a database with a `sessions` table, under any ASCII
   * case (`Sessions` too), cleaned with only `clear_session_data`.  As
   * written the call fails and the sessions survive; with the commit before
   * VACUUM it succeeds and the table is empty.
   */
  lemma SessionClearLostAsWritten(d: Disk, path: Path, dir: Path, o: CleanupOptions, contents: Db, u: string)
    requires path in d.files && CaseDistinct(contents) && u in contents.tables && Lower(u) == "sessions"
    requires o == CleanupOptions(false, [], false, "", false, true)
    ensures var r := CleanDatabaseAsWritten(d, path, dir, o, true, true, contents);
      !r.ok && r.contents == contents
    ensures var r := CleanDatabaseOutcome(d, path, dir, o, true, true, contents);
      r.ok && r.contents.tables[u].rows == []
  {
    SessionTablesIgnoreCase(contents, u);
    DeleteAllsOnly(contents, SessionTables);
    CleanStepsResult(true, contents, o);
  }

  // ----------------------------------------------------------------- class

  /** A connection's contents and transaction flag are what the effect `e` describes. */
  twostate predicate Performed(conn: Connection, e: Effect)
    reads conn
  {
    conn.db == e.db && conn.inTransaction == (old(conn.inTransaction) || e.began) && conn.saved == old(conn.saved)
  }

  /**
   * `DatabaseCleaner`.  Its private methods take the open connection
   * (Python's cursor); `clean_database` opens one after backing the file up.
   */
  class DatabaseCleaner {
    const backupManager: BackupManager

    constructor (manager: BackupManager)
      ensures backupManager == manager
    {
      backupManager := manager;
    }

    /** `analyze_database`; None stands for the `{}` returned for a path that does not exist. */
    method AnalyzeDatabase(path: Path, isDatabase: bool, contents: Db) returns (r: Option<Analysis>)
      ensures r == if Exists(backupManager.disk, path) then Some(AnalysisOf(isDatabase, contents)) else None
    {
      if !Exists(backupManager.disk, path) {
        return None;
      }
      var a := Analyze(isDatabase, contents);
      r := Some(a);
    }

    /** The table loop of `analyze_database` on the file's contents. */
    method Analyze(isDatabase: bool, file: Db) returns (a: Analysis)
      ensures a == AnalysisOf(isDatabase, file)
    {
      if !isDatabase {
        return Analysis([], []);
      }
      var names := file.names;
      var tables: seq<TableInfo> := [];
      var targets: seq<TableInfo> := [];
      var i := 0;
      while i < |names|
        invariant 0 <= i <= |names|
        invariant Analysis(tables, targets) == Analyzed(file, names[..i])
      {
        TakeTake(names, i + 1, i);
        var info := AnalyzeTable(file, names[i]);
        tables := tables + [info];
        if IsPotentialCleanupTarget(info) {
          targets := targets + [info];
        }
        i := i + 1;
      }
      assert names[..i] == names;
      a := Analysis(tables, targets);
    }

    /** `_analyze_table`. */
    method AnalyzeTable(db: Db, t: string) returns (info: TableInfo)
      ensures info == TableInfoOf(db, t)
    {
      var cols := ColumnsOf(db, t);
      var texts: seq<string> := [];
      var ids: seq<string> := [];
      var i := 0;
      while i < |cols|
        invariant 0 <= i <= |cols|
        invariant texts == TextColumnNames(cols[..i]) && ids == IdColumnNames(cols[..i])
      {
        TakeTake(cols, i + 1, i);
        if IsTextType(cols[i].declType) {
          texts := texts + [cols[i].name];
        }
        if IsPotentialIdColumn(cols[i].name) {
          ids := ids + [cols[i].name];
        }
        i := i + 1;
      }
      assert cols[..i] == cols;
      var rowCount := if t in db.tables then |db.tables[t].rows| else 0;
      info := TableInfo(t, cols, rowCount, texts, ids);
    }

    /** `_search_table_for_keyword`. */
    method SearchTableForKeyword(conn: Connection, t: string, keyword: string) returns (records: seq<Record>)
      ensures records == SearchTable(conn.isDatabase, conn.db, t, keyword)
    {
      var db := conn.db;
      var u := Resolve(db, t);
      if !conn.isDatabase || u.None? || TextColumnNames(db.tables[u.value].columns) == [] {
        return [];
      }
      var cols := db.tables[u.value].columns;
      var texts := TextColumnNames(cols);
      var rows := Matching(cols, db.tables[u.value].rows, KeywordClause(cols, keyword));
      ghost var expected := RowRecords(t, cols, rows, keyword);
      assert forall j :: 0 <= j < |rows| ==>
        expected[j] == Record(t, rows[j].rowid, rows[j].values, MatchingColumns(cols, texts, rows[j], keyword));
      records := [];
      var i := 0;
      while i < |rows|
        invariant 0 <= i <= |rows|
        invariant records == expected[..i]
      {
        var matching := MatchingColumnsOf(cols, texts, rows[i], keyword);
        records := records + [Record(t, rows[i].rowid, rows[i].values, matching)];
        assert expected[..i + 1] == expected[..i] + [expected[i]];
        i := i + 1;
      }
      assert expected[..i] == expected;
    }

    /** `search_for_augment_records`; `tables` None searches the analysis' cleanup targets. */
    method SearchForAugmentRecords(path: Path, tables: Option<seq<string>>, isDatabase: bool, contents: Db)
      returns (records: seq<Record>)
      ensures !Exists(backupManager.disk, path) ==> records == []
      ensures Exists(backupManager.disk, path) ==>
        records == SearchedRecords(isDatabase, contents, SearchedTables(isDatabase, contents, tables), "augment")
    {
      if !Exists(backupManager.disk, path) {
        return [];
      }
      var ts: seq<string>;
      if tables.None? {
        var a := Analyze(isDatabase, contents);
        ts := NamesOf(a.targets);
      } else {
        ts := tables.value;
      }
      var conn := new Connection(isDatabase, contents);
      records := [];
      var i := 0;
      while i < |ts|
        invariant 0 <= i <= |ts|
        invariant conn.db == contents && conn.isDatabase == isDatabase
        invariant records == SearchedRecords(isDatabase, contents, ts[..i], "augment")
      {
        var found := SearchTableForKeyword(conn, ts[i], "augment");
        SearchedRecordsSnoc(isDatabase, contents, ts, i, "augment");
        records := records + found;
        i := i + 1;
      }
      assert ts[..i] == ts;
    }

    /** The column loop that fills a record's `matching_columns`. */
    method MatchingColumnsOf(cols: seq<Column>, texts: seq<string>, x: Row, keyword: string) returns (r: seq<string>)
      ensures r == MatchingColumns(cols, texts, x, keyword)
    {
      r := [];
      var k := 0;
      while k < |cols|
        invariant 0 <= k <= |cols|
        invariant r == MatchingColumns(cols[..k], texts, x, keyword)
      {
        TakeTake(cols, k + 1, k);
        var v := Cell(x, k);
        if cols[k].name in texts && Truthy(v) && ContainsCI(AsText(v).value, keyword) {
          r := r + [cols[k].name];
        }
        k := k + 1;
      }
      assert cols[..k] == cols;
    }

    /** `_delete_records_with_keyword`. */
    method DeleteRecordsWithKeyword(conn: Connection, t: string, keyword: string) returns (count: nat)
      modifies conn
      ensures count == KeywordDelete(conn.isDatabase, old(conn.db), t, keyword).count
      ensures Performed(conn, KeywordDelete(conn.isDatabase, old(conn.db), t, keyword))
    {
      var u := Resolve(conn.db, t);
      if !conn.isDatabase || u.None? || TextColumnNames(conn.db.tables[u.value].columns) == [] {
        return 0;
      }
      var r := conn.Delete(t, KeywordClause(conn.db.tables[u.value].columns, keyword));
      count := r.count;
    }

    /** `_remove_augment_records`; an empty request means the analysis' cleanup targets. */
    method RemoveAugmentRecords(conn: Connection, requested: seq<string>) returns (ok: bool)
      modifies conn
      ensures ok
      ensures Performed(conn, AugmentRemoval(conn.isDatabase, old(conn.saved), old(conn.db), requested).effect)
    {
      var tables := requested;
      if tables == [] {
        var analysis := Analyze(conn.isDatabase, conn.saved);
        tables := NamesOf(analysis.targets);
      }
      ghost var start := conn.db;
      var total := 0;
      var i := 0;
      while i < |tables|
        invariant 0 <= i <= |tables|
        invariant Performed(conn, KeywordDeletes(conn.isDatabase, start, tables[..i], "augment"))
        invariant total == KeywordDeletes(conn.isDatabase, start, tables[..i], "augment").count
      {
        TakeTake(tables, i + 1, i);
        var n := DeleteRecordsWithKeyword(conn, tables[i], "augment");
        total := total + n;
        i := i + 1;
      }
      assert tables[..i] == tables;
      ok := true;
    }

    /** `_clean_account_table`; the user-ID columns it also collects are never used. */
    method CleanAccountTable(conn: Connection, t: string, target: string) returns (count: nat)
      modifies conn
      ensures count == AccountTableClean(conn.isDatabase, old(conn.db), t, target).count
      ensures Performed(conn, AccountTableClean(conn.isDatabase, old(conn.db), t, target))
    {
      if !conn.isDatabase {
        return 0;
      }
      var emails := EmailColumnsOf(ColumnsOf(conn.db, t));
      if target != [] && emails != [] {
        count := DeleteByEmail(conn, t, emails, target);
      } else {
        var r := conn.Delete(t, Everything);
        count := if r.Done? then r.count else 0;
      }
    }

    /** The column loop of `_clean_account_table` that collects e-mail columns. */
    method EmailColumnsOf(cols: seq<Column>) returns (emails: seq<string>)
      ensures emails == EmailColumnNames(cols)
    {
      emails := [];
      var i := 0;
      while i < |cols|
        invariant 0 <= i <= |cols|
        invariant emails == EmailColumnNames(cols[..i])
      {
        TakeTake(cols, i + 1, i);
        if IsEmailColumn(cols[i].name) {
          emails := emails + [cols[i].name];
        }
        i := i + 1;
      }
      assert cols[..i] == cols;
    }

    /** The `DELETE ... WHERE column = ?` loop over the e-mail columns. */
    method DeleteByEmail(conn: Connection, t: string, emails: seq<string>, target: string) returns (count: nat)
      modifies conn
      requires conn.isDatabase
      ensures count == EmailDeletes(true, old(conn.db), t, emails, target).count
      ensures Performed(conn, EmailDeletes(true, old(conn.db), t, emails, target))
    {
      ghost var start := conn.db;
      ghost var e := Untouched(start);
      count := 0;
      var j := 0;
      while j < |emails|
        invariant 0 <= j <= |emails|
        invariant e == EmailDeletes(true, start, t, emails[..j], target)
        invariant Performed(conn, e) && count == e.count
      {
        EmailDeletesSnoc(start, t, emails, j, target);
        ghost var step := DeleteEffect(true, e.db, t, Equals(emails[j], target));
        var r := conn.Delete(t, Equals(emails[j], target));
        assert step.count == if r.Done? then r.count else 0;
        count := count + if r.Done? then r.count else 0;
        e := Then(e, step);
        j := j + 1;
      }
      assert emails[..j] == emails;
    }

    /** `_remove_email_references`. */
    method RemoveEmailReferences(conn: Connection, tables: seq<string>, email: string) returns (total: nat)
      modifies conn
      ensures total == EmailReferenceDeletes(conn.isDatabase, old(conn.db), tables, email).count
      ensures Performed(conn, EmailReferenceDeletes(conn.isDatabase, old(conn.db), tables, email))
    {
      ghost var start := conn.db;
      total := 0;
      var i := 0;
      while i < |tables|
        invariant 0 <= i <= |tables|
        invariant Performed(conn, EmailReferenceDeletes(conn.isDatabase, start, tables[..i], email))
        invariant total == EmailReferenceDeletes(conn.isDatabase, start, tables[..i], email).count
      {
        EmailReferenceDeletesSnoc(conn.isDatabase, start, tables, i, email);
        var n := SweepTable(conn, tables[i], email);
        total := total + n;
        i := i + 1;
      }
      assert tables[..i] == tables;
    }

    /** One table of `_remove_email_references`: sample each column, then delete. */
    method SweepTable(conn: Connection, t: string, email: string) returns (count: nat)
      modifies conn
      ensures count == EmailReferenceDelete(conn.isDatabase, old(conn.db), t, email).count
      ensures Performed(conn, EmailReferenceDelete(conn.isDatabase, old(conn.db), t, email))
    {
      if !conn.isDatabase || t !in conn.db.tables {
        return 0;
      }
      var cols := conn.db.tables[t].columns;
      var rows := conn.db.tables[t].rows;
      var texts: seq<string> := [];
      var k := 0;
      while k < |cols|
        invariant 0 <= k <= |cols|
        invariant texts == SampledTextColumns(cols[..k], rows)
        invariant conn.db == old(conn.db) && conn.inTransaction == old(conn.inTransaction) && conn.saved == old(conn.saved)
      {
        SampledTextColumnsSnoc(cols, rows, k);
        if rows != [] && Cell(rows[0], k).Text? {
          texts := texts + [cols[k].name];
        }
        k := k + 1;
      }
      assert cols[..k] == cols;
      if texts == [] {
        return 0;
      }
      var r := conn.Delete(t, AnyLike(texts, Wrapped(email)));
      count := r.count;
    }

    /** `_remove_account_data`. */
    method RemoveAccountData(conn: Connection, target: string) returns (ok: bool)
      modifies conn
      ensures ok == AccountDataRemoval(conn.isDatabase, old(conn.db), target).ok
      ensures Performed(conn, AccountDataRemoval(conn.isDatabase, old(conn.db), target).effect)
    {
      if !conn.isDatabase {
        return false;
      }
      var allTables := conn.db.names;
      var accountTables := AccountTablesOf(allTables);
      var total := CleanAccountTables(conn, accountTables, target);
      if target != [] {
        var swept := RemoveEmailReferences(conn, allTables, target);
        total := total + swept;
      }
      ok := true;
    }

    /** The name loop of `_remove_account_data` that picks the account tables. */
    method AccountTablesOf(names: seq<string>) returns (accountTables: seq<string>)
      ensures accountTables == AccountTables(names)
    {
      accountTables := [];
      var i := 0;
      while i < |names|
        invariant 0 <= i <= |names|
        invariant accountTables == AccountTables(names[..i])
      {
        TakeTake(names, i + 1, i);
        if IsAccountTable(names[i]) {
          accountTables := accountTables + [names[i]];
        }
        i := i + 1;
      }
      assert names[..i] == names;
    }

    /** The loop of `_remove_account_data` that cleans each account table. */
    method CleanAccountTables(conn: Connection, ts: seq<string>, target: string) returns (total: nat)
      modifies conn
      requires conn.isDatabase
      ensures total == AccountTableCleans(true, old(conn.db), ts, target).count
      ensures Performed(conn, AccountTableCleans(true, old(conn.db), ts, target))
    {
      ghost var start := conn.db;
      total := 0;
      var j := 0;
      while j < |ts|
        invariant 0 <= j <= |ts|
        invariant Performed(conn, AccountTableCleans(true, start, ts[..j], target))
        invariant total == AccountTableCleans(true, start, ts[..j], target).count
      {
        AccountTableCleansSnoc(start, ts, j, target);
        var n := CleanAccountTable(conn, ts[j], target);
        total := total + n;
        j := j + 1;
      }
      assert ts[..j] == ts;
    }

    /** `_reset_database_telemetry_ids`, a placeholder that changes nothing. */
    method ResetDatabaseTelemetryIds() returns (ok: bool)
      ensures ok
    {
      ok := true;
    }

    /** `_clear_session_data`. */
    method ClearSessionData(conn: Connection) returns (ok: bool)
      modifies conn
      ensures ok == SessionClear(conn.isDatabase, old(conn.db)).ok
      ensures Performed(conn, SessionClear(conn.isDatabase, old(conn.db)).effect)
    {
      ok := DeleteEvery(conn, SessionTables);
    }

    /** The loop of `_clear_session_data`: `DELETE FROM` each table; the first failure on a non-database ends it. */
    method DeleteEvery(conn: Connection, ts: seq<string>) returns (ok: bool)
      modifies conn
      ensures ok == (conn.isDatabase || ts == [])
      ensures Performed(conn, if conn.isDatabase then DeleteAlls(old(conn.db), ts) else Untouched(old(conn.db)))
    {
      ghost var start := conn.db;
      var i := 0;
      while i < |ts|
        invariant 0 <= i <= |ts|
        invariant !conn.isDatabase ==> i == 0
        invariant Performed(conn, DeleteAlls(start, ts[..i]))
      {
        DeleteAllsSnoc(start, ts, i);
        var r := conn.Delete(ts[i], Everything);
        if r.Failed? && r.failure == NotADatabase {
          return false;
        }
        i := i + 1;
      }
      assert ts[..i] == ts;
      ok := true;
    }

    /**
     * `clean_database`, committing the steps' deletions before VACUUM (see
     * `CleanDatabaseAsWritten` for the order the source uses).
     */
    method CleanDatabase(path: Path, dir: Path, o: CleanupOptions, copyOk: bool, isDatabase: bool, contents: Db)
      returns (ok: bool, after: Db)
      modifies backupManager
      ensures DbOutcome(ok, backupManager.disk, after)
           == CleanDatabaseOutcome(old(backupManager.disk), path, dir, o, copyOk, isDatabase, contents)
    {
      if !Exists(backupManager.disk, path) {
        return false, contents;
      }
      var backedUp := backupManager.BackupFile(path, dir, DatabaseBackupRelative(path), copyOk);
      if !backedUp {
        return false, contents;
      }
      var conn := new Connection(isDatabase, contents);
      var success := true;
      ghost var s := Step(true, Untouched(contents));
      if o.removeAugmentRecords {
        var r := RemoveAugmentRecords(conn, o.tablesToClean);
        s := And(s, AugmentRemoval(isDatabase, contents, contents, o.tablesToClean));
        success := success && r;
      }
      assert conn.db == s.effect.db && success == s.ok;
      if o.removeAccountData {
        var r := RemoveAccountData(conn, o.targetEmail);
        s := And(s, AccountDataRemoval(isDatabase, s.effect.db, o.targetEmail));
        success := success && r;
      }
      assert conn.db == s.effect.db && success == s.ok;
      if o.resetTelemetryIds {
        var r := ResetDatabaseTelemetryIds();
        s := And(s, Step(true, Untouched(s.effect.db)));
        success := success && r;
      }
      if o.clearSessionData {
        var r := ClearSessionData(conn);
        s := And(s, SessionClear(isDatabase, s.effect.db));
        success := success && r;
      }
      assert s == CleanSteps(isDatabase, contents, o);
      conn.Commit();
      if success {
        success := conn.Vacuum();
      }
      ok, after := success, conn.saved;
    }
  }
}
