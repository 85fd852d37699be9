// The configuration scanner and rewriter: it finds telemetry IDs and account
// data in JSON, INI, XML and plain-text configuration files, and writes a new
// value over one found ID.  Parsed documents are values; which parser
// succeeds on a file is part of the input.
module Config {
  import opened Common
  import opened Patterns
  import Utils

  /** The ID key patterns, in the order they are tried. */
  const IdPatterns: seq<Pattern> := [
    Joined("device", "id"), Joined("machine", "id"), Joined("telemetry", "id"),
    Joined("client", "id"), Joined("unique", "id"), Joined("installation", "id"),
    Joined("session", "id"), Joined("user", "id"), Word("guid"), Word("uuid")]

  /** The account key patterns, in the order they are tried. */
  const AccountPatterns: seq<Pattern> := [
    Word("email"), Word("username"), Joined("user", "name"), Word("login"),
    Word("account"), Word("profile"), Word("identity")]

  // ------------------------------------------------------- key patterns

  /** `re.search(pattern, key, re.IGNORECASE)` succeeds: the pattern matches from some position. */
  predicate KeyMatches(p: Pattern, key: string)
  {
    exists j :: 0 <= j <= |key| && PatternEnds(p, key, j) != []
  }

  /** The first of `patterns[k..]` that occurs in `key`: the loop with its `break`. */
  function FirstMatchingFrom(patterns: seq<Pattern>, key: string, k: nat): (r: Option<nat>)
    requires k <= |patterns|
    ensures r.Some? ==> (k <= r.value < |patterns| && KeyMatches(patterns[r.value], key)
                         && forall j :: k <= j < r.value ==> !KeyMatches(patterns[j], key))
    ensures r.None? ==> forall j :: k <= j < |patterns| ==> !KeyMatches(patterns[j], key)
    decreases |patterns| - k
  {
    if k == |patterns| then None
    else if KeyMatches(patterns[k], key) then Some(k)
    else FirstMatchingFrom(patterns, key, k + 1)
  }

  function FirstMatching(patterns: seq<Pattern>, key: string): Option<nat>
  {
    FirstMatchingFrom(patterns, key, 0)
  }

  /** The `for pattern in patterns: if re.search(...): ...; break` loop. */
  method FindFirstPattern(patterns: seq<Pattern>, key: string) returns (hit: Option<nat>)
    ensures hit == FirstMatching(patterns, key)
  {
    var k := 0;
    while k < |patterns|
      invariant 0 <= k <= |patterns|
      invariant FirstMatchingFrom(patterns, key, k) == FirstMatching(patterns, key)
    {
      if KeyMatches(patterns[k], key) {
        return Some(k);
      }
      k := k + 1;
    }
    return None;
  }

  /** A key a pattern occurs in contains the pattern's last word, ignoring case. */
  lemma KeyMatchesLastWord(p: Pattern, key: string)
    requires KeyMatches(p, key)
    ensures ContainsCI(key, LastWord(p))
  {
    var j :| 0 <= j <= |key| && PatternEnds(p, key, j) != [];
    var x := LastWordAt(p, key, j);
    LitCIContains(key, LastWord(p), x);
  }

  lemma LitCIContains(s: string, w: string, i: nat)
    requires LitCIAt(s, w, i)
    ensures ContainsCI(s, w)
  {
    LowerSlice(s, i, i + |w|);
    assert OccursAt(Lower(s), Lower(w), i);
  }

  /** Every key the ID patterns match contains `id`, ignoring case (`guid` and `uuid` end in it). */
  lemma {:induction false} IdKeysContainId(key: string, k: nat)
    requires k < |IdPatterns| && KeyMatches(IdPatterns[k], key)
    ensures ContainsCI(key, "id")
  {
    KeyMatchesLastWord(IdPatterns[k], key);
    var b := LastWord(IdPatterns[k]);
    assert b == "id" || b == "guid" || b == "uuid";
    assert Lower(b) == b && Lower("id") == "id";
    assert OccursAt(b, "id", |b| - 2);
    OccursAtContains(b, "id", |b| - 2);
    ContainsTrans(Lower(key), b, "id");
  }

  /** The one-record-per-key rule: a key gives a record exactly when some pattern occurs in it. */
  lemma KeyHitIff(file: Path, format: string, loc: Location, q: Query, key: string, value: Json)
    ensures |KeyHit(file, format, loc, q, key, value)| == 1
            <==> exists k :: 0 <= k < |q.patterns| && KeyMatches(q.patterns[k], key)
  {
  }

  // ------------------------------------------------------------ records

  datatype Json = JNull | JBool(b: bool) | JNum(n: int) | JStr(s: string) | JArr(items: seq<Json>) | JObj(fields: seq<Field>)
  datatype Field = Field(key: string, value: Json)

  /** Python's truth value of a parsed document (`if not data:`). */
  predicate Truthy(v: Json)
  {
    match v
    case JNull => false
    case JBool(b) => b
    case JNum(n) => n != 0
    case JStr(s) => s != []
    case JArr(items) => items != []
    case JObj(fields) => fields != []
  }

  /** What a record was found as: an ID, an account field, or an email value. */
  datatype Kind = IdField | AccountField | EmailValue

  /** Where in its file a record was found; a text location keeps the whole line it was found on. */
  datatype Location =
    | JsonAt(keyPath: string)
    | IniAt(section: string)
    | XmlElementAt(elementPath: string)
    | XmlAttributeAt(elementPath: string)
    | TextAt(lineNumber: nat, line: string)

  /** The `full_line` of a text record: its line, stripped. */
  function FullLine(loc: Location): string
    requires loc.TextAt?
  {
    Strip(loc.line)
  }

  /**
   * One found item: the file, its format tag, the location, the key (tag,
   * attribute or matched key text), the value, the pattern text that matched
   * (`email` for email values), and the kind.
   */
  datatype Record = Record(file: Path, format: string, loc: Location, key: string, value: Json,
                           pattern: string, kind: Kind)

  /** What a search looks for: the key patterns, the kind they record, and whether email values count. */
  datatype Query = Query(patterns: seq<Pattern>, kind: Kind, emails: bool)

  const IdQuery: Query := Query(IdPatterns, IdField, false)
  const AccountQuery: Query := Query(AccountPatterns, AccountField, true)

  /** Every record of `rs` was found in `file` and carries format tag `format`. */
  predicate Tagged(rs: seq<Record>, file: Path, format: string)
  {
    forall k :: 0 <= k < |rs| ==> rs[k].file == file && rs[k].format == format
  }

  /** The record for a key that matches one of the query's patterns, if it does. */
  function KeyHit(file: Path, format: string, loc: Location, q: Query, key: string, value: Json): (r: seq<Record>)
    ensures |r| <= 1
    ensures r != [] ==> r[0].key == key && r[0].value == value && r[0].kind == q.kind
    ensures Tagged(r, file, format)
  {
    match FirstMatching(q.patterns, key)
    case Some(k) => [Record(file, format, loc, key, value, PatternText(q.patterns[k]), q.kind)]
    case None => []
  }

  // -------------------------------------------------------------- JSON

  /** `f"{path}.{key}" if path else key`. */
  function ChildPath(path: string, key: string): string
  {
    if path != "" then path + "." + key else key
  }

  /** `f"{path}[{i}]"`. */
  function ItemPath(path: string, i: nat): string
  {
    path + "[" + NatToString(i) + "]"
  }

  /** The records one dictionary entry contributes on its own. */
  function EntryRecords(file: Path, q: Query, path: string, key: string, value: Json): (r: seq<Record>)
    ensures forall k :: 0 <= k < |r| ==> r[k].loc == JsonAt(path) && r[k].key == key && r[k].value == value
    ensures |r| <= 2
    ensures Tagged(r, file, "json")
  {
    KeyHit(file, "json", JsonAt(path), q, key, value)
    + (if q.emails && value.JStr? && StartsWithEmail(value.s)
       then [Record(file, "json", JsonAt(path), key, value, "email", EmailValue)] else [])
  }

  /** `search_dict(obj, path)`. */
  function SearchValue(file: Path, q: Query, v: Json, path: string): seq<Record>
    decreases v, 1
  {
    match v
    case JObj(fields) => SearchFields(file, q, fields, path)
    case JArr(items) => SearchItems(file, q, items, path, 0)
    case _ => []
  }

  function SearchFields(file: Path, q: Query, fields: seq<Field>, path: string): seq<Record>
    decreases fields, 0
  {
    if fields == [] then []
    else
      var cur := ChildPath(path, fields[0].key);
      EntryRecords(file, q, cur, fields[0].key, fields[0].value)
      + SearchValue(file, q, fields[0].value, cur)
      + SearchFields(file, q, fields[1..], path)
  }

  function SearchItems(file: Path, q: Query, items: seq<Json>, path: string, i: nat): seq<Record>
    decreases items, 0
  {
    if items == [] then []
    else SearchValue(file, q, items[0], ItemPath(path, i)) + SearchItems(file, q, items[1..], path, i + 1)
  }

  /** One dictionary entry of a document, with the path the search gives it. */
  datatype Entry = Entry(path: string, key: string, value: Json)

  /** Every dictionary entry at any depth, in document order (the reference enumeration). */
  function Entries(v: Json, path: string): seq<Entry>
    decreases v, 1
  {
    match v
    case JObj(fields) => FieldEntries(fields, path)
    case JArr(items) => ItemEntries(items, path, 0)
    case _ => []
  }

  function FieldEntries(fields: seq<Field>, path: string): seq<Entry>
    decreases fields, 0
  {
    if fields == [] then []
    else
      var cur := ChildPath(path, fields[0].key);
      [Entry(cur, fields[0].key, fields[0].value)] + Entries(fields[0].value, cur) + FieldEntries(fields[1..], path)
  }

  function ItemEntries(items: seq<Json>, path: string, i: nat): seq<Entry>
    decreases items, 0
  {
    if items == [] then []
    else Entries(items[0], ItemPath(path, i)) + ItemEntries(items[1..], path, i + 1)
  }

  /** The records of a list of entries, each on its own. */
  function RecordsOf(file: Path, q: Query, es: seq<Entry>): (r: seq<Record>)
    ensures Tagged(r, file, "json")
  {
    if es == [] then []
    else EntryRecords(file, q, es[0].path, es[0].key, es[0].value) + RecordsOf(file, q, es[1..])
  }

  lemma {:induction false} RecordsOfAppend(file: Path, q: Query, a: seq<Entry>, b: seq<Entry>)
    ensures RecordsOf(file, q, a + b) == RecordsOf(file, q, a) + RecordsOf(file, q, b)
    decreases |a|
  {
    if a == [] {
      assert a + b == b;
    } else {
      assert (a + b)[0] == a[0];
      assert (a + b)[1..] == a[1..] + b;
      RecordsOfAppend(file, q, a[1..], b);
    }
  }

  /**
   * The recursive search records exactly the entries of the document, each
   * for its own key and value, in document order.
   */
  lemma {:induction false} SearchValueIsPerEntry(file: Path, q: Query, v: Json, path: string)
    ensures SearchValue(file, q, v, path) == RecordsOf(file, q, Entries(v, path))
    decreases v, 1
  {
    match v
    case JObj(fields) => SearchFieldsIsPerEntry(file, q, fields, path);
    case JArr(items) => SearchItemsIsPerEntry(file, q, items, path, 0);
    case _ =>
  }

  lemma {:induction false} SearchFieldsIsPerEntry(file: Path, q: Query, fields: seq<Field>, path: string)
    ensures SearchFields(file, q, fields, path) == RecordsOf(file, q, FieldEntries(fields, path))
    decreases fields, 0
  {
    if fields != [] {
      var cur := ChildPath(path, fields[0].key);
      var head := [Entry(cur, fields[0].key, fields[0].value)];
      SearchValueIsPerEntry(file, q, fields[0].value, cur);
      SearchFieldsIsPerEntry(file, q, fields[1..], path);
      RecordsOfAppend(file, q, head + Entries(fields[0].value, cur), FieldEntries(fields[1..], path));
      RecordsOfAppend(file, q, head, Entries(fields[0].value, cur));
      assert RecordsOf(file, q, head) == EntryRecords(file, q, cur, fields[0].key, fields[0].value);
    }
  }

  lemma {:induction false} SearchItemsIsPerEntry(file: Path, q: Query, items: seq<Json>, path: string, i: nat)
    ensures SearchItems(file, q, items, path, i) == RecordsOf(file, q, ItemEntries(items, path, i))
    decreases items, 0
  {
    if items != [] {
      SearchValueIsPerEntry(file, q, items[0], ItemPath(path, i));
      SearchItemsIsPerEntry(file, q, items[1..], path, i + 1);
      RecordsOfAppend(file, q, Entries(items[0], ItemPath(path, i)), ItemEntries(items[1..], path, i + 1));
    }
  }

  /** `_search_json_for_ids` / `_search_json_for_accounts` on the parsed file (`None`: unreadable). */
  function SearchJson(file: Path, q: Query, doc: Option<Json>): (r: seq<Record>)
    ensures Tagged(r, file, "json")
    ensures doc.None? || !Truthy(doc.value) ==> r == []
    ensures doc.Some? && Truthy(doc.value) ==> r == RecordsOf(file, q, Entries(doc.value, ""))
  {
    if doc.None? || !Truthy(doc.value) then []
    else
      SearchValueIsPerEntry(file, q, doc.value, "");
      SearchValue(file, q, doc.value, "")
  }

  /** The ID search records one entry per matching key; the account search also one per email value. */
  lemma EntryRecordCount(file: Path, q: Query, e: Entry)
    ensures |EntryRecords(file, q, e.path, e.key, e.value)|
      == (if exists k :: 0 <= k < |q.patterns| && KeyMatches(q.patterns[k], e.key) then 1 else 0)
       + (if q.emails && e.value.JStr? && StartsWithEmail(e.value.s) then 1 else 0)
  {
    KeyHitIff(file, "json", JsonAt(e.path), q, e.key, e.value);
  }

  /** `search_dict`: a recursive walk whose dictionary and list cases are loops. */
  method SearchJsonValue(file: Path, q: Query, v: Json, path: string) returns (found: seq<Record>)
    ensures found == SearchValue(file, q, v, path)
    decreases v
  {
    found := [];
    match v {
      case JObj(fields) =>
        var i := 0;
        while i < |fields|
          invariant 0 <= i <= |fields|
          invariant SearchFields(file, q, fields, path) == found + SearchFields(file, q, fields[i..], path)
        {
          var f := fields[i];
          assert f in fields;
          var cur := ChildPath(path, f.key);
          var own := ScanJsonEntry(file, q, cur, f.key, f.value);
          var nested := SearchJsonValue(file, q, f.value, cur);
          assert fields[i..][0] == f && fields[i..][1..] == fields[i + 1..];
          ghost var rest := SearchFields(file, q, fields[i + 1..], path);
          Regroup(found, own, nested, rest);
          found := found + own + nested;
          i := i + 1;
        }
      case JArr(items) =>
        var i := 0;
        while i < |items|
          invariant 0 <= i <= |items|
          invariant SearchItems(file, q, items, path, 0) == found + SearchItems(file, q, items[i..], path, i)
        {
          assert items[i] in items;
          var nested := SearchJsonValue(file, q, items[i], ItemPath(path, i));
          assert items[i..][0] == items[i] && items[i..][1..] == items[i + 1..];
          ghost var rest := SearchItems(file, q, items[i + 1..], path, i + 1);
          assert found + (nested + rest) == (found + nested) + rest;
          found := found + nested;
          i := i + 1;
        }
      case _ =>
    }
  }

  lemma Regroup<T>(a: seq<T>, b: seq<T>, c: seq<T>, d: seq<T>)
    ensures a + (b + c + d) == (a + b + c) + d
  {
  }

  /** The pattern loop and the email check for one dictionary entry. */
  method ScanJsonEntry(file: Path, q: Query, path: string, key: string, value: Json) returns (rs: seq<Record>)
    ensures rs == EntryRecords(file, q, path, key, value)
  {
    var hit := FindFirstPattern(q.patterns, key);
    rs := [];
    if hit.Some? {
      rs := [Record(file, "json", JsonAt(path), key, value, PatternText(q.patterns[hit.value]), q.kind)];
    }
    if q.emails && value.JStr? && StartsWithEmail(value.s) {
      rs := rs + [Record(file, "json", JsonAt(path), key, value, "email", EmailValue)];
    }
  }

  // --------------------------------------------------------------- INI

  datatype IniEntry = IniEntry(key: string, value: string)
  datatype Section = Section(name: string, entries: seq<IniEntry>)

  /** The records of one `key = value` line of a section. */
  function IniEntryRecords(file: Path, q: Query, section: string, e: IniEntry): (r: seq<Record>)
    ensures |r| <= 2
    ensures forall k :: 0 <= k < |r| ==> r[k].loc == IniAt(section) && r[k].key == e.key && r[k].value == JStr(e.value)
    ensures Tagged(r, file, "ini")
  {
    KeyHit(file, "ini", IniAt(section), q, e.key, JStr(e.value))
    + (if q.emails && StartsWithEmail(e.value)
       then [Record(file, "ini", IniAt(section), e.key, JStr(e.value), "email", EmailValue)] else [])
  }

  /** The body of the entry loop: the first matching pattern, then the email check. */
  method ScanIniEntry(file: Path, q: Query, section: string, e: IniEntry) returns (rs: seq<Record>)
    ensures rs == IniEntryRecords(file, q, section, e)
  {
    var hit := FindFirstPattern(q.patterns, e.key);
    rs := [];
    if hit.Some? {
      rs := [Record(file, "ini", IniAt(section), e.key, JStr(e.value), PatternText(q.patterns[hit.value]), q.kind)];
    }
    if q.emails && StartsWithEmail(e.value) {
      rs := rs + [Record(file, "ini", IniAt(section), e.key, JStr(e.value), "email", EmailValue)];
    }
  }

  /** The records of the first `n` entries of a section. */
  function SectionRecords(file: Path, q: Query, s: Section, n: nat): (r: seq<Record>)
    requires n <= |s.entries|
    ensures Tagged(r, file, "ini")
  {
    if n == 0 then []
    else SectionRecords(file, q, s, n - 1) + IniEntryRecords(file, q, s.name, s.entries[n - 1])
  }

  lemma SectionRecordsStep(file: Path, q: Query, s: Section, n: nat)
    requires n < |s.entries|
    ensures SectionRecords(file, q, s, n + 1) == SectionRecords(file, q, s, n) + IniEntryRecords(file, q, s.name, s.entries[n])
  {
  }

  /** The records of a parsed INI file, section by section. */
  function IniRecords(file: Path, q: Query, sections: seq<Section>): (r: seq<Record>)
    ensures Tagged(r, file, "ini")
  {
    if sections == [] then []
    else
      var last := sections[|sections| - 1];
      IniRecords(file, q, sections[..|sections| - 1]) + SectionRecords(file, q, last, |last.entries|)
  }

  lemma IniRecordsSnoc(file: Path, q: Query, sections: seq<Section>, i: nat)
    requires i < |sections|
    ensures IniRecords(file, q, sections[..i + 1])
            == IniRecords(file, q, sections[..i]) + SectionRecords(file, q, sections[i], |sections[i].entries|)
  {
    TakeTake(sections, i + 1, i);
  }

  /** `_search_ini_for_ids` / `_search_ini_for_accounts` on a file the parser read: the loop over its sections. */
  method SearchIni(file: Path, q: Query, sections: seq<Section>) returns (found: seq<Record>)
    ensures found == IniRecords(file, q, sections)
  {
    found := [];
    var i := 0;
    while i < |sections|
      invariant 0 <= i <= |sections|
      invariant found == IniRecords(file, q, sections[..i])
    {
      var inSection := ScanSection(file, q, sections[i]);
      IniRecordsSnoc(file, q, sections, i);
      found := found + inSection;
      i := i + 1;
    }
    assert sections[..i] == sections;
  }

  /** The loop over one section's entries. */
  method ScanSection(file: Path, q: Query, s: Section) returns (found: seq<Record>)
    ensures found == SectionRecords(file, q, s, |s.entries|)
  {
    found := [];
    var j := 0;
    while j < |s.entries|
      invariant 0 <= j <= |s.entries|
      invariant found == SectionRecords(file, q, s, j)
    {
      var rs := ScanIniEntry(file, q, s.name, s.entries[j]);
      SectionRecordsStep(file, q, s, j);
      found := found + rs;
      j := j + 1;
    }
  }

  /** Every INI record names a section and an entry of that section whose key or value it matched. */
  lemma {:induction false} IniRecordSource(file: Path, q: Query, sections: seq<Section>, r: Record)
    requires r in IniRecords(file, q, sections)
    ensures exists i, j :: (0 <= i < |sections| && 0 <= j < |sections[i].entries|
                            && r.loc == IniAt(sections[i].name) && r.key == sections[i].entries[j].key
                            && r.value == JStr(sections[i].entries[j].value))
    decreases |sections|
  {
    var n := |sections| - 1;
    var last := sections[n];
    if r in IniRecords(file, q, sections[..n]) {
      IniRecordSource(file, q, sections[..n], r);
      var i, j :| 0 <= i < n && 0 <= j < |sections[..n][i].entries|
        && r.loc == IniAt(sections[..n][i].name) && r.key == sections[..n][i].entries[j].key
        && r.value == JStr(sections[..n][i].entries[j].value);
      assert sections[..n][i] == sections[i];
    } else {
      var j := SectionRecordSource(file, q, last, |last.entries|, r);
    }
  }

  lemma {:induction false} SectionRecordSource(file: Path, q: Query, s: Section, n: nat, r: Record) returns (j: nat)
    requires n <= |s.entries| && r in SectionRecords(file, q, s, n)
    ensures j < n && r.loc == IniAt(s.name) && r.key == s.entries[j].key && r.value == JStr(s.entries[j].value)
    decreases n
  {
    assert n > 0;
    var m: nat := n - 1;
    SectionRecordsStep(file, q, s, m);
    var prev := SectionRecords(file, q, s, m);
    var entry := IniEntryRecords(file, q, s.name, s.entries[m]);
    if r in prev {
      j := SectionRecordSource(file, q, s, m, r);
    } else {
      assert r in entry;
      var k :| 0 <= k < |entry| && entry[k] == r;
      j := m;
    }
  }

  // --------------------------------------------------------------- XML

  datatype Attr = Attr(name: string, value: string)

  /** An element: its tag, its text (`None` when it has none), its attributes and its children. */
  datatype Element = Element(tag: string, text: Option<string>, attrs: seq<Attr>, children: seq<Element>)

  /** `element.text` as a record value. */
  function TextValue(t: Option<string>): Json
  {
    if t.Some? then JStr(t.value) else JNull
  }

  /** `f"{path}/{element.tag}" if path else element.tag`. */
  function ElementPath(path: string, tag: string): string
  {
    if path != "" then path + "/" + tag else tag
  }

  /** The records of one attribute: its name against the patterns, its value against the email pattern. */
  function AttrRecords(file: Path, q: Query, path: string, a: Attr): (r: seq<Record>)
    ensures forall k :: 0 <= k < |r| ==> r[k].loc == XmlAttributeAt(path) && r[k].key == a.name
    ensures Tagged(r, file, "xml")
  {
    KeyHit(file, "xml", XmlAttributeAt(path), q, a.name, JStr(a.value))
    + (if q.emails && StartsWithEmail(a.value)
       then [Record(file, "xml", XmlAttributeAt(path), a.name, JStr(a.value), "email", EmailValue)] else [])
  }

  /** The records of the first `n` attributes. */
  function AttrsRecords(file: Path, q: Query, path: string, attrs: seq<Attr>, n: nat): (r: seq<Record>)
    requires n <= |attrs|
    ensures Tagged(r, file, "xml")
  {
    if n == 0 then [] else AttrsRecords(file, q, path, attrs, n - 1) + AttrRecords(file, q, path, attrs[n - 1])
  }

  /**
   * The records an element contributes on its own: its tag, the email its
   * stripped text starts with (the record keeps the text as it is), then its
   * attributes in order.
   */
  function OwnRecords(file: Path, q: Query, e: Element, cur: string): (r: seq<Record>)
    ensures Tagged(r, file, "xml")
  {
    TagRecords(file, q, e, cur) + AttrsRecords(file, q, cur, e.attrs, |e.attrs|)
  }

  function TagRecords(file: Path, q: Query, e: Element, cur: string): (r: seq<Record>)
    ensures forall k :: 0 <= k < |r| ==> r[k].loc == XmlElementAt(cur) && r[k].key == e.tag
    ensures Tagged(r, file, "xml")
  {
    KeyHit(file, "xml", XmlElementAt(cur), q, e.tag, TextValue(e.text))
    + (if q.emails && e.text.Some? && e.text.value != "" && StartsWithEmail(Strip(e.text.value))
       then [Record(file, "xml", XmlElementAt(cur), e.tag, TextValue(e.text), "email", EmailValue)] else [])
  }

  /** `search_element(element, path)`. */
  function SearchElement(file: Path, q: Query, e: Element, path: string): seq<Record>
    decreases e, 1
  {
    var cur := ElementPath(path, e.tag);
    OwnRecords(file, q, e, cur) + SearchChildren(file, q, e.children, cur)
  }

  function SearchChildren(file: Path, q: Query, cs: seq<Element>, path: string): seq<Record>
    decreases cs, 0
  {
    if cs == [] then [] else SearchElement(file, q, cs[0], path) + SearchChildren(file, q, cs[1..], path)
  }

  /** An element of the tree with the path the search gives it. */
  datatype Node = Node(path: string, elem: Element)

  /** Every element of the tree in document (pre-)order, as `root.iter()` yields them. */
  function Preorder(e: Element, path: string): seq<Node>
    decreases e, 1
  {
    var cur := ElementPath(path, e.tag);
    [Node(cur, e)] + PreorderAll(e.children, cur)
  }

  function PreorderAll(cs: seq<Element>, path: string): seq<Node>
    decreases cs, 0
  {
    if cs == [] then [] else Preorder(cs[0], path) + PreorderAll(cs[1..], path)
  }

  /** The records of a list of nodes, each on its own. */
  function NodeRecords(file: Path, q: Query, ns: seq<Node>): (r: seq<Record>)
    ensures Tagged(r, file, "xml")
  {
    if ns == [] then [] else OwnRecords(file, q, ns[0].elem, ns[0].path) + NodeRecords(file, q, ns[1..])
  }

  lemma {:induction false} NodeRecordsAppend(file: Path, q: Query, a: seq<Node>, b: seq<Node>)
    ensures NodeRecords(file, q, a + b) == NodeRecords(file, q, a) + NodeRecords(file, q, b)
    decreases |a|
  {
    if a == [] {
      assert a + b == b;
    } else {
      assert (a + b)[0] == a[0];
      assert (a + b)[1..] == a[1..] + b;
      NodeRecordsAppend(file, q, a[1..], b);
    }
  }

  /** The recursive search visits every element once, in document order, and records it on its own. */
  lemma {:induction false} SearchElementIsPerNode(file: Path, q: Query, e: Element, path: string)
    ensures SearchElement(file, q, e, path) == NodeRecords(file, q, Preorder(e, path))
    decreases e, 1
  {
    var cur := ElementPath(path, e.tag);
    SearchChildrenIsPerNode(file, q, e.children, cur);
    NodeRecordsAppend(file, q, [Node(cur, e)], PreorderAll(e.children, cur));
  }

  lemma {:induction false} SearchChildrenIsPerNode(file: Path, q: Query, cs: seq<Element>, path: string)
    ensures SearchChildren(file, q, cs, path) == NodeRecords(file, q, PreorderAll(cs, path))
    decreases cs, 0
  {
    if cs != [] {
      SearchElementIsPerNode(file, q, cs[0], path);
      SearchChildrenIsPerNode(file, q, cs[1..], path);
      NodeRecordsAppend(file, q, Preorder(cs[0], path), PreorderAll(cs[1..], path));
    }
  }

  /** `_search_xml_for_ids` / `_search_xml_for_accounts` on the parsed tree (`None`: the parser raised). */
  function SearchXml(file: Path, q: Query, root: Option<Element>): (r: seq<Record>)
    ensures Tagged(r, file, "xml")
    ensures root.None? ==> r == []
    ensures root.Some? ==> r == NodeRecords(file, q, Preorder(root.value, ""))
  {
    if root.None? then []
    else
      SearchElementIsPerNode(file, q, root.value, "");
      SearchElement(file, q, root.value, "")
  }

  /** `search_element` itself: the tag check, the attribute loop, then the loop over the children. */
  method SearchXmlElement(file: Path, q: Query, e: Element, path: string) returns (found: seq<Record>)
    ensures found == SearchElement(file, q, e, path)
    decreases e, 1
  {
    var cur := ElementPath(path, e.tag);
    var own := ScanXmlElement(file, q, e, cur);
    var i := 0;
    var below: seq<Record> := [];
    while i < |e.children|
      invariant 0 <= i <= |e.children|
      invariant SearchChildren(file, q, e.children, cur) == below + SearchChildren(file, q, e.children[i..], cur)
    {
      below := SearchNextChild(file, q, e, cur, i, below);
      i := i + 1;
    }
    found := own + below;
  }

  /** One step of the loop over the children: the records below child `i` join those of the children before it. */
  method SearchNextChild(file: Path, q: Query, e: Element, cur: string, i: nat, below: seq<Record>)
    returns (more: seq<Record>)
    requires i < |e.children|
    requires SearchChildren(file, q, e.children, cur) == below + SearchChildren(file, q, e.children[i..], cur)
    ensures SearchChildren(file, q, e.children, cur) == more + SearchChildren(file, q, e.children[i + 1..], cur)
    decreases e, 0
  {
    var c := e.children[i];
    assert c in e.children;
    var sub := SearchXmlElement(file, q, c, cur);
    assert e.children[i..][0] == c && e.children[i..][1..] == e.children[i + 1..];
    ghost var rest := SearchChildren(file, q, e.children[i + 1..], cur);
    assert below + (sub + rest) == (below + sub) + rest;
    more := below + sub;
  }

  /** The element's own checks: its tag, its text, then the loop over its attributes. */
  method ScanXmlElement(file: Path, q: Query, e: Element, cur: string) returns (rs: seq<Record>)
    ensures rs == OwnRecords(file, q, e, cur)
  {
    var head := ScanXmlTag(file, q, e, cur);
    var attrs := ScanXmlAttrs(file, q, cur, e.attrs);
    rs := head + attrs;
  }

  /** The loop over an element's attributes. */
  method ScanXmlAttrs(file: Path, q: Query, cur: string, attrs: seq<Attr>) returns (rs: seq<Record>)
    ensures rs == AttrsRecords(file, q, cur, attrs, |attrs|)
  {
    rs := [];
    var j := 0;
    while j < |attrs|
      invariant 0 <= j <= |attrs|
      invariant rs == AttrsRecords(file, q, cur, attrs, j)
    {
      rs := ScanNextAttr(file, q, cur, attrs, j, rs);
      j := j + 1;
    }
  }

  /** One step of that loop: the records of the first `j + 1` attributes from those of the first `j`. */
  method ScanNextAttr(file: Path, q: Query, cur: string, attrs: seq<Attr>, j: nat, sofar: seq<Record>)
    returns (rs: seq<Record>)
    requires j < |attrs| && sofar == AttrsRecords(file, q, cur, attrs, j)
    ensures rs == AttrsRecords(file, q, cur, attrs, j + 1)
  {
    var more := ScanXmlAttr(file, q, cur, attrs[j]);
    rs := sofar + more;
  }

  method ScanXmlTag(file: Path, q: Query, e: Element, cur: string) returns (rs: seq<Record>)
    ensures rs == TagRecords(file, q, e, cur)
  {
    var hit := FindFirstPattern(q.patterns, e.tag);
    rs := [];
    if hit.Some? {
      rs := [Record(file, "xml", XmlElementAt(cur), e.tag, TextValue(e.text), PatternText(q.patterns[hit.value]), q.kind)];
    }
    if q.emails && e.text.Some? && e.text.value != "" && StartsWithEmail(Strip(e.text.value)) {
      rs := rs + [Record(file, "xml", XmlElementAt(cur), e.tag, TextValue(e.text), "email", EmailValue)];
    }
  }

  method ScanXmlAttr(file: Path, q: Query, cur: string, a: Attr) returns (rs: seq<Record>)
    ensures rs == AttrRecords(file, q, cur, a)
  {
    var hit := FindFirstPattern(q.patterns, a.name);
    rs := [];
    if hit.Some? {
      rs := [Record(file, "xml", XmlAttributeAt(cur), a.name, JStr(a.value), PatternText(q.patterns[hit.value]), q.kind)];
    }
    if q.emails && StartsWithEmail(a.value) {
      rs := rs + [Record(file, "xml", XmlAttributeAt(cur), a.name, JStr(a.value), "email", EmailValue)];
    }
  }

  // -------------------------------------------------------------- text

  /** Every record of `rs` is a text record of `file` found on `line`, numbered `n`, and its value occurs on that line. */
  predicate OnLine(rs: seq<Record>, file: Path, n: nat, line: string)
  {
    forall x :: 0 <= x < |rs| ==>
      (rs[x].file == file && rs[x].format == "text" && rs[x].loc == TextAt(n, line)
       && rs[x].value.JStr? && Contains(line, rs[x].value.s))
  }

  /** The record of one email found on line `n`; it has no key. */
  function EmailRecord(file: Path, n: nat, line: string, m: Match): (r: Record)
    requires WellFormed(m, line)
    ensures OnLine([r], file, n, line)
  {
    assert OccursAt(line, Value(line, m), m.valueStart);
    Record(file, "text", TextAt(n, line), "", JStr(Value(line, m)), "email", EmailValue)
  }

  /** The records of the first `k` of the email matches `ms` of a line. */
  function EmailRecords(file: Path, n: nat, line: string, ms: seq<Match>, k: nat): (r: seq<Record>)
    requires k <= |ms| && forall x :: 0 <= x < |ms| ==> WellFormed(ms[x], line)
    ensures |r| == k && OnLine(r, file, n, line)
  {
    if k == 0 then [] else EmailRecords(file, n, line, ms, k - 1) + [EmailRecord(file, n, line, ms[k - 1])]
  }

  /** `re.search(rf'({p})\s*[=:]\s*([^\s\n]+)', line, re.IGNORECASE)` as a record. */
  function AssignRecord(file: Path, q: Query, n: nat, line: string, p: Pattern): (r: seq<Record>)
    ensures |r| <= 1 && OnLine(r, file, n, line)
    ensures r != [] ==> r[0].kind == q.kind && r[0].pattern == PatternText(p)
  {
    match Search(Assign(p), line)
    case Some(m) =>
      assert OccursAt(line, Value(line, m), m.valueStart);
      [Record(file, "text", TextAt(n, line), Key(line, m), JStr(Value(line, m)), PatternText(p), q.kind)]
    case None => []
  }

  /** The records of the first `k` patterns on a line: every pattern that matches gives one. */
  function AssignRecords(file: Path, q: Query, n: nat, line: string, k: nat): (r: seq<Record>)
    requires k <= |q.patterns|
    ensures |r| <= k && OnLine(r, file, n, line)
  {
    if k == 0 then [] else AssignRecords(file, q, n, line, k - 1) + AssignRecord(file, q, n, line, q.patterns[k - 1])
  }

  /** The records of line `n`: its emails first (account search only), then the key patterns. */
  function LineRecords(file: Path, q: Query, line: string, n: nat): (r: seq<Record>)
    ensures OnLine(r, file, n, line)
  {
    var ms := FindAll(Email, line);
    (if q.emails then EmailRecords(file, n, line, ms, |ms|) else [])
    + AssignRecords(file, q, n, line, |q.patterns|)
  }

  /** Every record of `rs` comes from one of the first `k` lines, numbered from 1, and its value occurs on that line. */
  predicate FromLines(rs: seq<Record>, file: Path, lines: seq<string>, k: nat)
    requires k <= |lines|
  {
    forall x :: 0 <= x < |rs| ==>
      (rs[x].file == file && rs[x].format == "text" && rs[x].loc.TextAt?
       && 1 <= rs[x].loc.lineNumber <= k && rs[x].loc.line == lines[rs[x].loc.lineNumber - 1]
       && rs[x].value.JStr? && Contains(rs[x].loc.line, rs[x].value.s))
  }

  lemma FromLinesSnoc(before: seq<Record>, mine: seq<Record>, file: Path, lines: seq<string>, k: nat)
    requires 1 <= k <= |lines|
    requires FromLines(before, file, lines, k - 1) && OnLine(mine, file, k, lines[k - 1])
    ensures FromLines(before + mine, file, lines, k)
  {
    forall x | 0 <= x < |before + mine|
      ensures (before + mine)[x] == (if x < |before| then before[x] else mine[x - |before|])
    {
    }
  }

  /** The records of the first `k` lines, numbered from 1. */
  function TextRecords(file: Path, q: Query, lines: seq<string>, k: nat): (r: seq<Record>)
    requires k <= |lines|
    ensures FromLines(r, file, lines, k)
  {
    if k == 0 then []
    else
      var before := TextRecords(file, q, lines, k - 1);
      var mine := LineRecords(file, q, lines[k - 1], k);
      FromLinesSnoc(before, mine, file, lines, k);
      before + mine
  }

  /** `_search_text_for_ids` / `_search_text_for_accounts` (`None`: the file could not be opened). */
  function SearchTextSpec(file: Path, q: Query, content: Option<string>): (r: seq<Record>)
    ensures Tagged(r, file, "text")
    ensures content.Some? ==> FromLines(r, file, Split(content.value, '\n'), |Split(content.value, '\n')|)
  {
    if content.None? then []
    else
      var lines := Split(content.value, '\n');
      TextRecords(file, q, lines, |lines|)
  }

  /** The line loop: `for line_num, line in enumerate(content.split('\n'), 1)`. */
  method SearchText(file: Path, q: Query, content: Option<string>) returns (found: seq<Record>)
    ensures found == SearchTextSpec(file, q, content)
  {
    found := [];
    if content.None? {
      return;
    }
    var lines := Split(content.value, '\n');
    var i := 0;
    while i < |lines|
      invariant 0 <= i <= |lines|
      invariant found == TextRecords(file, q, lines, i)
    {
      var rs := ScanLine(file, q, lines[i], i + 1);
      found := found + rs;
      i := i + 1;
    }
  }

  /** One line: the `finditer` loop over its emails, then the pattern loop. */
  method ScanLine(file: Path, q: Query, line: string, n: nat) returns (rs: seq<Record>)
    ensures rs == LineRecords(file, q, line, n)
  {
    var emails: seq<Record> := [];
    var ms := FindAll(Email, line);
    if q.emails {
      emails := ScanEmails(file, n, line, ms);
    }
    var keyed := ScanAssignments(file, q, n, line);
    rs := emails + keyed;
  }

  /** `for match in re.finditer(email_pattern, line)`. */
  method ScanEmails(file: Path, n: nat, line: string, ms: seq<Match>) returns (rs: seq<Record>)
    requires forall x :: 0 <= x < |ms| ==> WellFormed(ms[x], line)
    ensures rs == EmailRecords(file, n, line, ms, |ms|)
  {
    rs := [];
    var k := 0;
    while k < |ms|
      invariant 0 <= k <= |ms|
      invariant rs == EmailRecords(file, n, line, ms, k)
    {
      rs := rs + [EmailRecord(file, n, line, ms[k])];
      k := k + 1;
    }
  }

  /** The pattern loop of a line; there is no `break`, so every pattern that matches gives a record. */
  method ScanAssignments(file: Path, q: Query, n: nat, line: string) returns (rs: seq<Record>)
    ensures rs == AssignRecords(file, q, n, line, |q.patterns|)
  {
    rs := [];
    var k := 0;
    while k < |q.patterns|
      invariant 0 <= k <= |q.patterns|
      invariant rs == AssignRecords(file, q, n, line, k)
    {
      rs := ScanNextAssignment(file, q, n, line, k, rs);
      k := k + 1;
    }
  }

  /** One step of that loop: the records of the first `k + 1` patterns from those of the first `k`. */
  method ScanNextAssignment(file: Path, q: Query, n: nat, line: string, k: nat, sofar: seq<Record>)
    returns (rs: seq<Record>)
    requires k < |q.patterns| && sofar == AssignRecords(file, q, n, line, k)
    ensures rs == AssignRecords(file, q, n, line, k + 1)
  {
    var more := ScanAssignment(file, q, n, line, q.patterns[k]);
    rs := sofar + more;
  }

  /** One key pattern on one line. */
  method ScanAssignment(file: Path, q: Query, n: nat, line: string, p: Pattern) returns (rs: seq<Record>)
    ensures rs == AssignRecord(file, q, n, line, p)
  {
    var m := Search(Assign(p), line);
    rs := [];
    if m.Some? {
      rs := [Record(file, "text", TextAt(n, line), Key(line, m.value), JStr(Value(line, m.value)), PatternText(p), q.kind)];
    }
  }

  // ---------------------------------------------------------- dispatch

  /**
   * A configuration file: its path and what each parser makes of it
   * (`None` where that parser raises or the file cannot be opened).
   */
  datatype ConfigFile = ConfigFile(path: Path, json: Option<Json>, ini: Option<seq<Section>>,
                                   xml: Option<Element>, text: Option<string>)

  /** `config_file.suffix.lower()`. */
  function Extension(f: ConfigFile): string
  {
    Lower(Utils.Suffix(PathName(f.path)))
  }

  /** The records of one file, by its extension; any other extension is read as plain text. */
  function FileRecords(f: ConfigFile, q: Query): (r: seq<Record>)
    ensures Tagged(r, f.path, FormatOf(Extension(f)))
  {
    var ext := Extension(f);
    if ext == ".json" then SearchJson(f.path, q, f.json)
    else if ext == ".ini" || ext == ".cfg" || ext == ".conf" then (if f.ini.Some? then IniRecords(f.path, q, f.ini.value) else [])
    else if ext == ".xml" then SearchXml(f.path, q, f.xml)
    else SearchTextSpec(f.path, q, f.text)
  }

  /** The records of the first `k` files, in order. */
  function AllRecords(files: seq<ConfigFile>, q: Query, k: nat): seq<Record>
    requires k <= |files|
  {
    if k == 0 then [] else AllRecords(files, q, k - 1) + FileRecords(files[k - 1], q)
  }

  /** The format tag a file's records carry. */
  function FormatOf(ext: string): string
  {
    if ext == ".json" then "json"
    else if ext == ".ini" || ext == ".cfg" || ext == ".conf" then "ini"
    else if ext == ".xml" then "xml"
    else "text"
  }

  /** The searches of one file: the branch on its extension. */
  method SearchFile(f: ConfigFile, q: Query) returns (found: seq<Record>)
    ensures found == FileRecords(f, q)
  {
    var ext := Extension(f);
    found := [];
    if ext == ".json" {
      if f.json.Some? && Truthy(f.json.value) {
        found := SearchJsonValue(f.path, q, f.json.value, "");
        SearchValueIsPerEntry(f.path, q, f.json.value, "");
      }
    } else if ext == ".ini" || ext == ".cfg" || ext == ".conf" {
      if f.ini.Some? {
        found := SearchIni(f.path, q, f.ini.value);
      }
    } else if ext == ".xml" {
      if f.xml.Some? {
        found := SearchXmlElement(f.path, q, f.xml.value, "");
        SearchElementIsPerNode(f.path, q, f.xml.value, "");
      }
    } else {
      found := SearchText(f.path, q, f.text);
    }
  }

  /** The loop over the files, extending the result with each file's records. */
  method SearchFiles(files: seq<ConfigFile>, q: Query) returns (found: seq<Record>)
    ensures found == AllRecords(files, q, |files|)
  {
    found := [];
    var i := 0;
    while i < |files|
      invariant 0 <= i <= |files|
      invariant found == AllRecords(files, q, i)
    {
      found := SearchNextFile(files, q, i, found);
      i := i + 1;
    }
  }

  /** One step of that loop: the records of the first `i + 1` files from those of the first `i`. */
  method SearchNextFile(files: seq<ConfigFile>, q: Query, i: nat, sofar: seq<Record>) returns (found: seq<Record>)
    requires i < |files| && sofar == AllRecords(files, q, i)
    ensures found == AllRecords(files, q, i + 1)
  {
    var rs := SearchFile(files[i], q);
    found := sofar + rs;
  }

  /** `search_for_telemetry_ids`. */
  method SearchForTelemetryIds(files: seq<ConfigFile>) returns (found: seq<Record>)
    ensures found == AllRecords(files, IdQuery, |files|)
  {
    found := SearchFiles(files, IdQuery);
  }

  /** `search_for_account_data`. */
  method SearchForAccountData(files: seq<ConfigFile>) returns (found: seq<Record>)
    ensures found == AllRecords(files, AccountQuery, |files|)
  {
    found := SearchFiles(files, AccountQuery);
  }
}
