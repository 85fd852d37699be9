// Writing a new value over a telemetry ID the configuration scanner found:
// one rewrite per file format, each on the parsed document, and the
// dispatch on the record's format tag.
module ConfigRewrite {
  import opened Common
  import opened Patterns
  import opened Config

  /** What a rewrite writes back to the file, if anything. */
  datatype Written =
    | Unchanged
    | JsonFile(doc: Json)
    | IniFile(sections: seq<Section>)
    | XmlFile(root: Element)
    | TextFile(lines: seq<string>)

  /** The rewrite's return value and what it wrote. */
  datatype Rewrite = Rewrite(ok: bool, written: Written)

  const Failed: Rewrite := Rewrite(false, Unchanged)

  // -------------------------------------------------------------- JSON

  /** The position of `key` among an object's fields (a parsed object has each key once). */
  function FieldIndex(fields: seq<Field>, key: string): (r: Option<nat>)
    ensures r.Some? ==> r.value < |fields| && fields[r.value].key == key
    ensures r.None? ==> forall j :: 0 <= j < |fields| ==> fields[j].key != key
  {
    if fields == [] then None
    else if fields[0].key == key then Some(0)
    else match FieldIndex(fields[1..], key)
      case Some(i) => Some(i + 1)
      case None => None
  }

  /** The value at a dotted key path, following objects only. */
  function Lookup(v: Json, keys: seq<string>): Option<Json>
    decreases keys
  {
    if keys == [] then Some(v)
    else match v
      case JObj(fields) =>
        (match FieldIndex(fields, keys[0])
         case Some(i) => Lookup(fields[i].value, keys[1..])
         case None => None)
      case _ => None
  }

  /**
   * The navigation of `_modify_json_id`: `key in current` then `current[key]`
   * for all but the last key, then the assignment to the last one.  A list or
   * a string on the way raises, which the caller turns into failure, exactly
   * like a missing key.
   */
  function SetAt(v: Json, keys: seq<string>, n: Json): Option<Json>
    requires keys != []
    decreases keys
  {
    match v
    case JObj(fields) =>
      (match FieldIndex(fields, keys[0])
       case None => None
       case Some(i) =>
         if |keys| == 1 then Some(JObj(fields[i := Field(keys[0], n)]))
         else match SetAt(fields[i].value, keys[1..], n)
           case None => None
           case Some(w) => Some(JObj(fields[i := Field(keys[0], w)])))
    case _ => None
  }

  lemma FieldIndexUpdate(fields: seq<Field>, i: nat, key: string, w: Json, other: string)
    requires i < |fields| && fields[i].key == key
    ensures FieldIndex(fields[i := Field(key, w)], other) == FieldIndex(fields, other)
  {
    if i > 0 && fields[0].key != other {
      assert fields[i := Field(key, w)][1..] == fields[1..][i - 1 := Field(key, w)];
      FieldIndexUpdate(fields[1..], i - 1, key, w, other);
    }
  }

  /** The rewrite succeeds exactly when the path leads, through objects, to an existing key. */
  lemma {:induction false} SetAtDefined(v: Json, keys: seq<string>, n: Json)
    requires keys != []
    ensures SetAt(v, keys, n).Some? <==> Lookup(v, keys).Some?
    decreases keys
  {
    if v.JObj? {
      var i := FieldIndex(v.fields, keys[0]);
      if i.Some? && |keys| > 1 {
        SetAtDefined(v.fields[i.value].value, keys[1..], n);
      }
    }
  }

  /** After the rewrite the path holds the new value. */
  lemma {:induction false} SetAtThenLookup(v: Json, keys: seq<string>, n: Json)
    requires keys != [] && SetAt(v, keys, n).Some?
    ensures Lookup(SetAt(v, keys, n).value, keys) == Some(n)
    decreases keys
  {
    var fields := v.fields;
    var i := FieldIndex(fields, keys[0]).value;
    var w := if |keys| == 1 then n else SetAt(fields[i].value, keys[1..], n).value;
    FieldIndexUpdate(fields, i, keys[0], w, keys[0]);
    if |keys| > 1 {
      SetAtThenLookup(fields[i].value, keys[1..], n);
    }
  }

  /** Every path that neither extends nor is extended by the rewritten one reads as before. */
  lemma {:induction false} SetAtKeepsOthers(v: Json, keys: seq<string>, n: Json, other: seq<string>)
    requires keys != [] && SetAt(v, keys, n).Some?
    requires !(keys <= other) && !(other <= keys)
    ensures Lookup(SetAt(v, keys, n).value, other) == Lookup(v, other)
    decreases keys
  {
    var fields := v.fields;
    var i := FieldIndex(fields, keys[0]).value;
    var w := if |keys| == 1 then n else SetAt(fields[i].value, keys[1..], n).value;
    var fields' := fields[i := Field(keys[0], w)];
    assert SetAt(v, keys, n).value == JObj(fields');
    FieldIndexUpdate(fields, i, keys[0], w, other[0]);
    var j := FieldIndex(fields, other[0]);
    if j.Some? && j.value == i {
      assert |keys| > 1 && |other| > 1;
      assert !(keys[1..] <= other[1..]) && !(other[1..] <= keys[1..]);
      SetAtKeepsOthers(fields[i].value, keys[1..], n, other[1..]);
    }
  }

  /** A path component with a `[` names no key of a document none of whose keys holds one. */
  lemma {:induction false} BracketPathFails(v: Json, keys: seq<string>, n: Json, k: nat)
    requires keys != [] && k < |keys| && '[' in keys[k]
    requires NoBracketKeys(v)
    ensures SetAt(v, keys, n).None?
    decreases keys
  {
    if v.JObj? {
      var i := FieldIndex(v.fields, keys[0]);
      if i.Some? {
        NoBracketField(v.fields, i.value);
        if k > 0 {
          BracketPathFails(v.fields[i.value].value, keys[1..], n, k - 1);
        }
      }
    }
  }

  lemma {:induction false} NoBracketField(fields: seq<Field>, i: nat)
    requires NoBracketFields(fields) && i < |fields|
    ensures '[' !in fields[i].key && NoBracketKeys(fields[i].value)
  {
    if i > 0 {
      NoBracketField(fields[1..], i - 1);
    }
  }

  /** No object key anywhere in the document contains `[`. */
  predicate NoBracketKeys(v: Json)
    decreases v, 1
  {
    match v
    case JObj(fields) => NoBracketFields(fields)
    case JArr(items) => NoBracketItems(items)
    case _ => true
  }

  predicate NoBracketFields(fields: seq<Field>)
    decreases fields, 0
  {
    fields == [] || ('[' !in fields[0].key && NoBracketKeys(fields[0].value) && NoBracketFields(fields[1..]))
  }

  predicate NoBracketItems(items: seq<Json>)
    decreases items, 0
  {
    items == [] || (NoBracketKeys(items[0]) && NoBracketItems(items[1..]))
  }

  /** `_modify_json_id` on the parsed file (`None`: unreadable), with the write's outcome. */
  function ModifyJsonId(doc: Option<Json>, keyPath: string, newValue: string, writeOk: bool): (r: Rewrite)
    ensures r.ok ==> r.written.JsonFile?
    ensures !r.ok ==> r.written == Unchanged
  {
    if doc.None? || !Truthy(doc.value) then Failed
    else
      match SetAt(doc.value, Split(keyPath, '.'), JStr(newValue))
      case None => Failed
      case Some(w) => if writeOk then Rewrite(true, JsonFile(w)) else Failed
  }

  /**
   * A dotted path to an existing key, none of whose parts holds a dot, is
   * rewritten: the new document holds the new value there and every
   * unrelated path is untouched.
   */
  lemma JsonRewriteRoundTrip(doc: Json, keys: seq<string>, newValue: string, other: seq<string>)
    requires |keys| >= 1 && Lookup(doc, keys).Some?
    requires forall k :: 0 <= k < |keys| ==> '.' !in keys[k]
    ensures var r := ModifyJsonId(Some(doc), Join(keys, '.'), newValue, true);
      r.ok && Lookup(r.written.doc, keys) == Some(JStr(newValue))
      && (!(keys <= other) && !(other <= keys) ==> Lookup(r.written.doc, other) == Lookup(doc, other))
  {
    SplitJoin(keys, '.');
    SetAtDefined(doc, keys, JStr(newValue));
    SetAtThenLookup(doc, keys, JStr(newValue));
    if !(keys <= other) && !(other <= keys) {
      SetAtKeepsOthers(doc, keys, JStr(newValue), other);
    }
  }

  // --------------------------------------------------------------- INI

  function SectionIndex(sections: seq<Section>, name: string): (r: Option<nat>)
    ensures r.Some? ==> r.value < |sections| && sections[r.value].name == name
    ensures r.None? ==> forall j :: 0 <= j < |sections| ==> sections[j].name != name
  {
    if sections == [] then None
    else if sections[0].name == name then Some(0)
    else match SectionIndex(sections[1..], name)
      case Some(i) => Some(i + 1)
      case None => None
  }

  /** `key in section`: option names are stored lower-cased, and the lookup lower-cases `key`. */
  function OptionIndex(entries: seq<IniEntry>, key: string): (r: Option<nat>)
    ensures r.Some? ==> r.value < |entries| && entries[r.value].key == Lower(key)
    ensures r.None? ==> forall j :: 0 <= j < |entries| ==> entries[j].key != Lower(key)
  {
    if entries == [] then None
    else if entries[0].key == Lower(key) then Some(0)
    else match OptionIndex(entries[1..], key)
      case Some(i) => Some(i + 1)
      case None => None
  }

  /** `_modify_ini_id` on the parsed file (`None`: the parser raised), with the write's outcome. */
  function ModifyIniId(ini: Option<seq<Section>>, section: string, key: string, newValue: string, writeOk: bool): (r: Rewrite)
    ensures r.ok ==> r.written.IniFile?
    ensures !r.ok ==> r.written == Unchanged
  {
    if ini.None? then Failed
    else
      var sections := ini.value;
      match SectionIndex(sections, section)
      case None => Failed
      case Some(i) =>
        match OptionIndex(sections[i].entries, key)
        case None => Failed
        case Some(j) =>
          if !writeOk then Failed
          else
            var s := sections[i];
            Rewrite(true, IniFile(sections[i := s.(entries := s.entries[j := IniEntry(Lower(key), newValue)])]))
  }

  /**
   * The INI rewrite succeeds exactly when the section exists and holds the
   * key (a parsed file names each section once, so the first section of that
   * name is the section); then that one option holds the new value and every
   * other option of every section is as it was.
   */
  lemma IniRewriteSpec(sections: seq<Section>, section: string, key: string, newValue: string)
    ensures var r := ModifyIniId(Some(sections), section, key, newValue, true);
      r.ok <==> (SectionIndex(sections, section).Some?
                 && exists j :: (0 <= j < |sections[SectionIndex(sections, section).value].entries|
                                 && sections[SectionIndex(sections, section).value].entries[j].key == Lower(key)))
    ensures var r := ModifyIniId(Some(sections), section, key, newValue, true);
      r.ok ==> (|r.written.sections| == |sections|
                && forall i :: 0 <= i < |sections| ==>
                   (r.written.sections[i].name == sections[i].name
                    && |r.written.sections[i].entries| == |sections[i].entries|
                    && forall j :: 0 <= j < |sections[i].entries| ==>
                       (r.written.sections[i].entries[j] == sections[i].entries[j]
                        || (i == SectionIndex(sections, section).value && sections[i].entries[j].key == Lower(key)
                            && r.written.sections[i].entries[j] == IniEntry(Lower(key), newValue)))))
  {
  }

  /** After a successful INI rewrite, reading the option back gives the new value. */
  lemma IniRewriteThenRead(sections: seq<Section>, section: string, key: string, newValue: string)
    requires ModifyIniId(Some(sections), section, key, newValue, true).ok
    ensures var w := ModifyIniId(Some(sections), section, key, newValue, true).written.sections;
      SectionIndex(w, section) == SectionIndex(sections, section)
      && var i := SectionIndex(w, section).value;
      OptionIndex(w[i].entries, key) == OptionIndex(sections[i].entries, key)
      && w[i].entries[OptionIndex(w[i].entries, key).value].value == newValue
  {
    var i := SectionIndex(sections, section).value;
    var j := OptionIndex(sections[i].entries, key).value;
    var s := sections[i];
    SectionIndexUpdate(sections, i, s.(entries := s.entries[j := IniEntry(Lower(key), newValue)]), section);
    OptionIndexUpdate(s.entries, j, IniEntry(Lower(key), newValue), key);
  }

  lemma {:induction false} SectionIndexUpdate(sections: seq<Section>, i: nat, s: Section, name: string)
    requires i < |sections| && sections[i].name == s.name
    ensures SectionIndex(sections[i := s], name) == SectionIndex(sections, name)
  {
    if i > 0 && sections[0].name != name {
      assert sections[i := s][1..] == sections[1..][i - 1 := s];
      SectionIndexUpdate(sections[1..], i - 1, s, name);
    }
  }

  lemma {:induction false} OptionIndexUpdate(entries: seq<IniEntry>, j: nat, e: IniEntry, key: string)
    requires j < |entries| && entries[j].key == e.key
    ensures OptionIndex(entries[j := e], key) == OptionIndex(entries, key)
  {
    if j > 0 && entries[0].key != Lower(key) {
      assert entries[j := e][1..] == entries[1..][j - 1 := e];
      OptionIndexUpdate(entries[1..], j - 1, e, key);
    }
  }

  // --------------------------------------------------------------- XML

  /** What `_modify_xml_id` looks for: an element by tag and text, or an attribute by name and value. */
  datatype XmlTarget =
    | TextTarget(tag: string, text: Option<string>)
    | AttrTarget(name: string, value: string)

  /** `name in elem.attrib`: the position of the attribute (an element names each attribute once). */
  function AttrIndex(attrs: seq<Attr>, name: string): (r: Option<nat>)
    ensures r.Some? ==> r.value < |attrs| && attrs[r.value].name == name
    ensures r.None? ==> forall j :: 0 <= j < |attrs| ==> attrs[j].name != name
  {
    if attrs == [] then None
    else if attrs[0].name == name then Some(0)
    else match AttrIndex(attrs[1..], name)
      case Some(i) => Some(i + 1)
      case None => None
  }

  /** The element is the one the rewrite is after: its own tag, text and attributes decide. */
  predicate Hits(e: Element, t: XmlTarget)
  {
    match t
    case TextTarget(tag, text) => e.tag == tag && e.text == text
    case AttrTarget(name, value) => AttrIndex(e.attrs, name).Some? && e.attrs[AttrIndex(e.attrs, name).value].value == value
  }

  /** The element with the new value written over its text or over the attribute. */
  function Retarget(e: Element, t: XmlTarget, newValue: string): (r: Element)
    ensures r.tag == e.tag && r.children == e.children
  {
    match t
    case TextTarget(_, _) => e.(text := Some(newValue))
    case AttrTarget(name, _) =>
      match AttrIndex(e.attrs, name)
      case Some(i) => e.(attrs := e.attrs[i := Attr(name, newValue)])
      case None => e
  }

  /** An element without its children: what `root.iter()` shows of it, besides its subtree. */
  function Own(e: Element): Element
  {
    Element(e.tag, e.text, e.attrs, [])
  }

  /** The elements of the tree in `root.iter()` order, each without its children. */
  function Flat(e: Element): seq<Element>
    decreases e, 1
  {
    [Own(e)] + FlatAll(e.children)
  }

  function FlatAll(cs: seq<Element>): seq<Element>
    decreases cs, 0
  {
    if cs == [] then [] else Flat(cs[0]) + FlatAll(cs[1..])
  }

  /** The position of the first element of `es` the rewrite is after. */
  function FirstHit(es: seq<Element>, t: XmlTarget): (r: Option<nat>)
    ensures r.Some? ==> r.value < |es| && Hits(es[r.value], t)
    ensures r.Some? ==> forall j :: 0 <= j < r.value ==> !Hits(es[j], t)
    ensures r.None? ==> forall j :: 0 <= j < |es| ==> !Hits(es[j], t)
  {
    if es == [] then None
    else if Hits(es[0], t) then Some(0)
    else match FirstHit(es[1..], t)
      case Some(i) => Some(i + 1)
      case None => None
  }

  /** The loop over `root.iter()` that stops at the first element it is after and rewrites it. */
  function ReplaceFirst(e: Element, t: XmlTarget, newValue: string): Option<Element>
    decreases e, 1
  {
    if Hits(e, t) then Some(Retarget(e, t, newValue))
    else match ReplaceFirstIn(e.children, t, newValue)
      case Some(cs) => Some(e.(children := cs))
      case None => None
  }

  function ReplaceFirstIn(cs: seq<Element>, t: XmlTarget, newValue: string): Option<seq<Element>>
    decreases cs, 0
  {
    if cs == [] then None
    else match ReplaceFirst(cs[0], t, newValue)
      case Some(c) => Some([c] + cs[1..])
      case None =>
        match ReplaceFirstIn(cs[1..], t, newValue)
        case Some(rest) => Some([cs[0]] + rest)
        case None => None
  }

  lemma HitsOwn(e: Element, t: XmlTarget)
    ensures Hits(Own(e), t) == Hits(e, t)
  {
  }

  /** Searching a concatenation for the first hit: the first part's hit wins, else the second part's, shifted. */
  lemma FirstHitAppend(a: seq<Element>, b: seq<Element>, t: XmlTarget)
    ensures FirstHit(a, t).Some? ==> FirstHit(a + b, t) == FirstHit(a, t)
    ensures FirstHit(a, t).None? ==>
      FirstHit(a + b, t) == (if FirstHit(b, t).Some? then Some(|a| + FirstHit(b, t).value) else None)
  {
    if FirstHit(a, t).Some? {
      FirstHitAppendLeft(a, b, t);
    } else {
      FirstHitAppendRight(a, b, t);
    }
  }

  lemma {:induction false} FirstHitAppendLeft(a: seq<Element>, b: seq<Element>, t: XmlTarget)
    requires FirstHit(a, t).Some?
    ensures FirstHit(a + b, t) == FirstHit(a, t)
  {
    assert (a + b)[0] == a[0];
    if !Hits(a[0], t) {
      assert (a + b)[1..] == a[1..] + b;
      FirstHitAppendLeft(a[1..], b, t);
    }
  }

  lemma {:induction false} FirstHitAppendRight(a: seq<Element>, b: seq<Element>, t: XmlTarget)
    requires FirstHit(a, t).None?
    ensures FirstHit(a + b, t) == (if FirstHit(b, t).Some? then Some(|a| + FirstHit(b, t).value) else None)
  {
    if a == [] {
      assert a + b == b;
    } else {
      var rest := a[1..];
      FirstHitSkip(a, b, t);
      FirstHitAppendRight(rest, b, t);
      var h := FirstHit(b, t);
      if h.Some? {
        assert FirstHit(rest + b, t) == Some(|rest| + h.value);
        assert |a| == 1 + |rest|;
      } else {
        assert FirstHit(rest + b, t).None?;
      }
    }
  }

  lemma FirstHitSkip(a: seq<Element>, b: seq<Element>, t: XmlTarget)
    requires a != [] && !Hits(a[0], t)
    ensures FirstHit(a, t).None? <==> FirstHit(a[1..], t).None?
    ensures FirstHit(a + b, t) == (if FirstHit(a[1..] + b, t).Some? then Some(1 + FirstHit(a[1..] + b, t).value) else None)
  {
    assert (a + b)[0] == a[0];
    assert (a + b)[1..] == a[1..] + b;
  }

  /**
   * The XML rewrite finds nothing exactly when no element of the tree is one
   * it is after; otherwise it changes the first such element in document order
   * and no other element of the tree.
   */
  lemma {:induction false} ReplaceFirstSpec(e: Element, t: XmlTarget, newValue: string)
    ensures ReplaceFirst(e, t, newValue).None? <==> FirstHit(Flat(e), t).None?
    ensures ReplaceFirst(e, t, newValue).Some? ==>
      var k := FirstHit(Flat(e), t).value;
      Flat(ReplaceFirst(e, t, newValue).value) == Flat(e)[k := Own(Retarget(Flat(e)[k], t, newValue))]
    decreases e, 1
  {
    HitsOwn(e, t);
    FirstHitAppend([Own(e)], FlatAll(e.children), t);
    if !Hits(e, t) {
      ReplaceFirstInSpec(e.children, t, newValue);
      var r := ReplaceFirstIn(e.children, t, newValue);
      if r.Some? {
        var k := FirstHit(FlatAll(e.children), t).value;
        var x := Own(Retarget(FlatAll(e.children)[k], t, newValue));
        assert ([Own(e)] + FlatAll(e.children))[k + 1 := x] == [Own(e)] + FlatAll(e.children)[k := x];
        assert Own(e.(children := r.value)) == Own(e);
      }
    }
  }

  lemma {:induction false} ReplaceFirstInSpec(cs: seq<Element>, t: XmlTarget, newValue: string)
    ensures ReplaceFirstIn(cs, t, newValue).None? <==> FirstHit(FlatAll(cs), t).None?
    ensures ReplaceFirstIn(cs, t, newValue).Some? ==>
      var k := FirstHit(FlatAll(cs), t).value;
      FlatAll(ReplaceFirstIn(cs, t, newValue).value) == FlatAll(cs)[k := Own(Retarget(FlatAll(cs)[k], t, newValue))]
    decreases cs, 0
  {
    if cs != [] {
      ReplaceFirstSpec(cs[0], t, newValue);
      ReplaceFirstInSpec(cs[1..], t, newValue);
      FirstHitAppend(Flat(cs[0]), FlatAll(cs[1..]), t);
      if ReplaceFirst(cs[0], t, newValue).Some? {
        ReplacedInHead(cs, t, newValue);
      } else if ReplaceFirstIn(cs[1..], t, newValue).Some? {
        ReplacedInTail(cs, t, newValue);
      }
    }
  }

  /** The first child holds the element rewritten: the later children are kept. */
  lemma ReplacedInHead(cs: seq<Element>, t: XmlTarget, newValue: string)
    requires cs != [] && ReplaceFirst(cs[0], t, newValue).Some?
    requires FirstHit(Flat(cs[0]), t).Some?
    requires var a := Flat(cs[0]); var k := FirstHit(a, t).value;
      Flat(ReplaceFirst(cs[0], t, newValue).value) == a[k := Own(Retarget(a[k], t, newValue))]
    requires FirstHit(FlatAll(cs), t) == FirstHit(Flat(cs[0]), t)
    ensures ReplaceFirstIn(cs, t, newValue).Some?
    ensures var k := FirstHit(FlatAll(cs), t).value;
      FlatAll(ReplaceFirstIn(cs, t, newValue).value) == FlatAll(cs)[k := Own(Retarget(FlatAll(cs)[k], t, newValue))]
  {
    var a := Flat(cs[0]);
    var b := FlatAll(cs[1..]);
    var h := ReplaceFirst(cs[0], t, newValue).value;
    var k := FirstHit(a, t).value;
    var x := Own(Retarget(a[k], t, newValue));
    UpdateLeft(a, b, k, x);
    assert ([h] + cs[1..])[0] == h && ([h] + cs[1..])[1..] == cs[1..];
  }

  /** A later child holds the element rewritten: the first child is kept. */
  lemma ReplacedInTail(cs: seq<Element>, t: XmlTarget, newValue: string)
    requires cs != [] && ReplaceFirst(cs[0], t, newValue).None?
    requires ReplaceFirstIn(cs[1..], t, newValue).Some? && FirstHit(FlatAll(cs[1..]), t).Some?
    requires var b := FlatAll(cs[1..]); var k := FirstHit(b, t).value;
      FlatAll(ReplaceFirstIn(cs[1..], t, newValue).value) == b[k := Own(Retarget(b[k], t, newValue))]
    requires FirstHit(FlatAll(cs), t) == Some(|Flat(cs[0])| + FirstHit(FlatAll(cs[1..]), t).value)
    ensures ReplaceFirstIn(cs, t, newValue).Some?
    ensures var k := FirstHit(FlatAll(cs), t).value;
      FlatAll(ReplaceFirstIn(cs, t, newValue).value) == FlatAll(cs)[k := Own(Retarget(FlatAll(cs)[k], t, newValue))]
  {
    var a := Flat(cs[0]);
    var b := FlatAll(cs[1..]);
    var rest := ReplaceFirstIn(cs[1..], t, newValue).value;
    var k := FirstHit(b, t).value;
    var x := Own(Retarget(b[k], t, newValue));
    ReplaceFirstInSkips(cs, t, newValue);
    FlatAllCons(cs[0], rest);
    FlatAllCons(cs[0], cs[1..]);
    assert [cs[0]] + cs[1..] == cs;
    UpdateRightAt(a, b, FlatAll(cs), k, x, FlatAll([cs[0]] + rest), FlatAll(rest));
  }

  /** A first child the rewrite misses is kept, and the rewrite goes on in the others. */
  lemma ReplaceFirstInSkips(cs: seq<Element>, t: XmlTarget, newValue: string)
    requires cs != [] && ReplaceFirst(cs[0], t, newValue).None?
    requires ReplaceFirstIn(cs[1..], t, newValue).Some?
    ensures ReplaceFirstIn(cs, t, newValue) == Some([cs[0]] + ReplaceFirstIn(cs[1..], t, newValue).value)
  {
  }

  lemma UpdateRightAt<T>(a: seq<T>, b: seq<T>, all: seq<T>, k: nat, x: T, after: seq<T>, bAfter: seq<T>)
    requires all == a + b && k < |b| && bAfter == b[k := x] && after == a + bAfter
    ensures |a| + k < |all| && all[|a| + k] == b[k] && after == all[|a| + k := x]
  {
    UpdateRight(a, b, k, x);
  }

  lemma FlatAllCons(c: Element, rest: seq<Element>)
    ensures FlatAll([c] + rest) == Flat(c) + FlatAll(rest)
  {
    assert ([c] + rest)[1..] == rest;
  }

  lemma UpdateLeft<T>(a: seq<T>, b: seq<T>, k: nat, x: T)
    requires k < |a|
    ensures (a + b)[k := x] == a[k := x] + b
  {
  }

  lemma UpdateRight<T>(a: seq<T>, b: seq<T>, k: nat, x: T)
    requires k < |b|
    ensures (a + b)[|a| + k := x] == a + b[k := x]
  {
  }

  /** `_modify_xml_id` on the parsed tree (`None`: the parser raised), with the write's outcome. */
  function ModifyXmlId(root: Option<Element>, t: XmlTarget, newValue: string, writeOk: bool): (r: Rewrite)
    ensures r.ok ==> r.written.XmlFile?
    ensures !r.ok ==> r.written == Unchanged
  {
    if root.None? then Failed
    else match ReplaceFirst(root.value, t, newValue)
      case None => Failed
      case Some(e) => if writeOk then Rewrite(true, XmlFile(e)) else Failed
  }

  // -------------------------------------------------------------- text

  /** The pieces of a split with their line ends put back, the empty piece after a final newline dropped. */
  function Terminate(parts: seq<string>): (r: seq<string>)
    requires |parts| >= 1
    ensures |r| == |parts| || (|r| == |parts| - 1 && parts[|parts| - 1] == [])
    ensures forall i :: 0 <= i < |r| ==>
      (r[i] == parts[i] + "\n" || (i == |parts| - 1 && r[i] == parts[i]))
  {
    if |parts| == 1 then (if parts[0] == [] then [] else [parts[0]])
    else [parts[0] + "\n"] + Terminate(parts[1..])
  }

  /**
   * `f.readlines()`: every line keeps its newline and the last line holds
   * the text after the last newline, if any.  Line `i` (0-based) is the
   * search's line `i + 1` with its newline put back, so the two number lines
   * alike.
   */
  function ReadLines(content: string): seq<string>
  {
    Terminate(Split(content, '\n'))
  }

  /** `f.writelines(lines)`. */
  function Concat(lines: seq<string>): string
  {
    if lines == [] then [] else lines[0] + Concat(lines[1..])
  }

  lemma {:induction false} ConcatTerminate(parts: seq<string>)
    requires |parts| >= 1
    ensures Concat(Terminate(parts)) == Join(parts, '\n')
  {
    if |parts| > 1 {
      ConcatTerminate(parts[1..]);
      assert Terminate(parts)[1..] == Terminate(parts[1..]);
    } else if parts[0] != [] {
      assert Terminate(parts)[1..] == [];
    }
  }

  /** Writing back the lines read gives the file back: `writelines(readlines())` is the identity. */
  lemma ReadLinesRoundTrip(content: string)
    ensures Concat(ReadLines(content)) == content
  {
    ConcatTerminate(Split(content, '\n'));
    JoinSplit(content, '\n');
  }

  /**
   * The line picked by `lines[line_number - 1]`: a number past the end is
   * refused, and `0` picks the last line as Python's index `-1` does (an
   * empty file raises, which ends in failure).
   */
  function LineIndex(lines: seq<string>, lineNumber: nat): (r: Option<nat>)
    ensures r.Some? <==> (lineNumber <= |lines| && lines != [])
    ensures r.Some? ==> r.value < |lines|
    ensures r.Some? && lineNumber > 0 ==> r.value == lineNumber - 1
  {
    if lineNumber > |lines| || lines == [] then None
    else if lineNumber == 0 then Some(|lines| - 1)
    else Some(lineNumber - 1)
  }

  /** The two `str.replace` calls of `_modify_text_id`: `key=old`, then `key:old`, everywhere on the line. */
  function RewriteLine(line: string, key: string, oldValue: string, newValue: string): string
  {
    var once := ReplaceAll(line, key + "=" + oldValue, key + "=" + newValue);
    ReplaceAll(once, key + ":" + oldValue, key + ":" + newValue)
  }

  /** A line the rewrite changes holds `key=old` or `key:old` written without spaces. */
  lemma RewriteLineNeedsExactText(line: string, key: string, oldValue: string, newValue: string)
    requires RewriteLine(line, key, oldValue, newValue) != line
    ensures Contains(line, key + "=" + oldValue) || Contains(line, key + ":" + oldValue)
  {
    if !Contains(line, key + "=" + oldValue) {
      ReplaceAllAbsent(line, key + "=" + oldValue, key + "=" + newValue);
      if !Contains(line, key + ":" + oldValue) {
        ReplaceAllAbsent(line, key + ":" + oldValue, key + ":" + newValue);
      }
    }
  }

  /** `_modify_text_id` on the file's text (`None`: unreadable), with the write's outcome, as written. */
  function ModifyTextIdAsWritten(content: Option<string>, lineNumber: nat, key: string, oldValue: string,
                                 newValue: string, writeOk: bool): (r: Rewrite)
    ensures r.ok ==> r.written.TextFile?
    ensures !r.ok ==> r.written == Unchanged
  {
    if content.None? then Failed
    else
      var lines := ReadLines(content.value);
      match LineIndex(lines, lineNumber)
      case None => Failed
      case Some(i) =>
        var line := RewriteLine(lines[i], key, oldValue, newValue);
        if line == lines[i] || !writeOk then Failed
        else Rewrite(true, TextFile(lines[i := line]))
  }

  /**
   * A successful text rewrite writes the file's lines back with one line
   * changed, and that line held `key=old` or `key:old`.
   */
  lemma TextRewriteAsWrittenSpec(content: string, lineNumber: nat, key: string, oldValue: string, newValue: string)
    requires ModifyTextIdAsWritten(Some(content), lineNumber, key, oldValue, newValue, true).ok
    ensures var lines := ReadLines(content);
      var w := ModifyTextIdAsWritten(Some(content), lineNumber, key, oldValue, newValue, true).written.lines;
      var i := LineIndex(lines, lineNumber).value;
      |w| == |lines| && w[i] != lines[i]
      && (forall j :: 0 <= j < |lines| && j != i ==> w[j] == lines[j])
      && (Contains(lines[i], key + "=" + oldValue) || Contains(lines[i], key + ":" + oldValue))
  {
    var lines := ReadLines(content);
    var i := LineIndex(lines, lineNumber).value;
    RewriteLineNeedsExactText(lines[i], key, oldValue, newValue);
  }

  /** `AssignFrom` at the key's end is what gave a match found by a key pattern its value. */
  lemma {:induction false} FirstAssignValue(s: string, i: nat, ends: seq<nat>)
    requires forall k :: 0 <= k < |ends| ==> i <= ends[k] <= |s|
    requires FirstAssign(s, i, ends).Some?
    ensures var m := FirstAssign(s, i, ends).value;
      m.keyEnd <= |s| && AssignFrom(s, m.keyEnd) == Some((m.valueStart, m.valueEnd))
  {
    if AssignFrom(s, ends[0]).None? {
      FirstAssignValue(s, i, ends[1..]);
    }
  }

  /**
   * The assignment the search reports on a line is not rewritten when it is
   * written with spaces around `=`: the search takes `device_id = abc` as
   * the key `device_id` with the value `abc`, and the rewrite then looks for
   * `device_id=abc`, which the line does not hold, so it reports failure.
   */
  lemma SpacedAssignmentNotRewritten(line: string, newValue: string)
    requires line == "device_id = abc"
    ensures Search(Assign(Joined("device", "id")), line) == Some(Match(0, 9, 12, 15, 15))
    ensures var m := Match(0, 9, 12, 15, 15);
      ModifyTextIdAsWritten(Some(line + "\n"), 1, Key(line, m), Value(line, m), newValue, true) == Failed
  {
    SpacedAssignmentFound(line);
    var m := Match(0, 9, 12, 15, 15);
    SpacedKeyValue(line, m);
    NotContainsExact(line + "\n", "device_id", "abc");
    SpacedLineOneLine(line);
    OneLineWithoutExactText(line, "device_id", "abc", newValue);
  }

  lemma SpacedLineOneLine(line: string)
    requires line == "device_id = abc"
    ensures '\n' !in line
  {
    assert forall i :: 0 <= i < |line| ==> line[i] != '\n';
  }

  lemma SpacedKeyValue(line: string, m: Match)
    requires line == "device_id = abc" && m == Match(0, 9, 12, 15, 15)
    ensures WellFormed(m, line) && Key(line, m) == "device_id" && Value(line, m) == "abc"
  {
  }

  lemma SpacedAssignmentFound(line: string)
    requires line == "device_id = abc"
    ensures Search(Assign(Joined("device", "id")), line) == Some(Match(0, 9, 12, 15, 15))
  {
    assert Lower(line[0..6]) == Lower("device");
    assert Lower(line[7..9]) == Lower("id");
    assert Lower(line[6..8]) != Lower("id") by { assert Lower(line[6..8])[0] == '_'; }
    assert PatternEnds(Joined("device", "id"), line, 0) == [9];
    SpacedValueSpan();
  }

  lemma SpacedValueSpan()
    ensures AssignFrom("device_id = abc", 9) == Some((12, 15))
  {
    var line := "device_id = abc";
    assert RunEnd(line, 9, Space) == 10;
    assert RunEnd(line, 11, Space) == 12;
    assert RunEnd(line, 12, NonSpace) == 15;
  }

  /** A one-line file whose line holds neither `key=old` nor `key:old` is left alone, and the rewrite fails. */
  lemma OneLineWithoutExactText(line: string, key: string, oldValue: string, newValue: string)
    requires '\n' !in line
    requires !Contains(line + "\n", key + "=" + oldValue) && !Contains(line + "\n", key + ":" + oldValue)
    ensures ModifyTextIdAsWritten(Some(line + "\n"), 1, key, oldValue, newValue, true) == Failed
  {
    var content := line + "\n";
    OneLine(line);
    assert LineIndex([content], 1) == Some(0);
    ReplaceAllAbsent(content, key + "=" + oldValue, key + "=" + newValue);
    ReplaceAllAbsent(content, key + ":" + oldValue, key + ":" + newValue);
  }

  /** A line without a newline, followed by one, is read as that single line. */
  lemma OneLine(line: string)
    requires '\n' !in line
    ensures ReadLines(line + "\n") == [line + "\n"]
  {
    var content := line + "\n";
    SplitJoin([line, ""], '\n');
    assert Join([line, ""], '\n') == line + "\n" + Join([""], '\n');
    assert Join([""], '\n') == "";
    assert line + "\n" + "" == content;
    assert Split(content, '\n') == [line, ""];
    assert [line, ""][1..] == [""];
    assert Terminate([""]) == [];
    assert Terminate([line, ""]) == [line + "\n"] + Terminate([""]);
  }

  lemma NotContainsExact(content: string, key: string, value: string)
    requires content == "device_id = abc\n" && key == "device_id" && value == "abc"
    ensures !Contains(content, key + "=" + value) && !Contains(content, key + ":" + value)
  {
    var eq := key + "=" + value;
    var colon := key + ":" + value;
    assert |eq| == 13 && eq[0] == 'd' && eq[9] == '=';
    assert |colon| == 13 && colon[0] == 'd' && colon[9] == ':';
    assert content[9] == ' ' && content[1] == 'e' && content[2] == 'v' && content[3] == 'i';
    forall i | 0 <= i <= |content| - 13
      ensures !OccursAt(content, eq, i) && !OccursAt(content, colon, i)
    {
      if i == 0 {
        assert content[i..i + 13][9] == ' ';
      } else {
        assert content[i..i + 13][0] != 'd';
      }
    }
  }

  /** At `i` the line holds `key`, spaces, `=` or `:`, spaces, then `old` as the whole value. */
  predicate AssignedAt(line: string, key: string, oldValue: string, i: nat)
    requires i <= |line|
  {
    OccursAt(line, key, i) && AssignFrom(line, i + |key|).Some?
    && line[AssignFrom(line, i + |key|).value.0..AssignFrom(line, i + |key|).value.1] == oldValue
  }

  /** The span of the value of the first such assignment from `i` on. */
  function AssignedSpan(line: string, key: string, oldValue: string, i: nat): (r: Option<(nat, nat)>)
    requires i <= |line|
    ensures r.Some? ==> r.value.0 <= r.value.1 <= |line| && line[r.value.0..r.value.1] == oldValue
    decreases |line| - i
  {
    if AssignedAt(line, key, oldValue, i) then AssignFrom(line, i + |key|)
    else if i == |line| then None
    else AssignedSpan(line, key, oldValue, i + 1)
  }

  lemma {:induction false} AssignedSpanFinds(line: string, key: string, oldValue: string, i: nat, j: nat)
    requires i <= j <= |line| && AssignedAt(line, key, oldValue, j)
    ensures AssignedSpan(line, key, oldValue, i).Some?
    decreases j - i
  {
    if i < j && !AssignedAt(line, key, oldValue, i) {
      AssignedSpanFinds(line, key, oldValue, i + 1, j);
    }
  }

  /** The rewrite of a line as intended: the value of the first assignment of `old` to `key`, spaces allowed. */
  function RewriteLineFixed(line: string, key: string, oldValue: string, newValue: string): (r: Option<string>)
    ensures r.Some? ==> exists a, b :: (0 <= a <= b <= |line| && line[a..b] == oldValue
                                        && r.value == line[..a] + newValue + line[b..])
  {
    match AssignedSpan(line, key, oldValue, 0)
    case None => None
    case Some(span) =>
      assert line[span.0..span.1] == oldValue;
      Some(line[..span.0] + newValue + line[span.1..])
  }

  /**
   * Every assignment the text search reports can be rewritten by the
   * intended rewrite: the line gets the new value in place of the reported
   * one, whatever spaces surround the `=` or `:`.
   */
  lemma SearchedAssignmentRewritten(line: string, p: Pattern, newValue: string)
    requires Search(Assign(p), line).Some?
    requires newValue != Value(line, Search(Assign(p), line).value)
    ensures var m := Search(Assign(p), line).value;
      var r := RewriteLineFixed(line, Key(line, m), Value(line, m), newValue);
      r.Some? && r.value != line
  {
    var m := Search(Assign(p), line).value;
    var key := Key(line, m);
    var value := Value(line, m);
    SearchedAssignmentShape(line, p);
    AssignedSpanFinds(line, key, value, 0, m.start);
    var r := RewriteLineFixed(line, key, value, newValue);
    var a, b :| 0 <= a <= b <= |line| && line[a..b] == value && r.value == line[..a] + newValue + line[b..];
    SpliceChanges(line, a, b, newValue);
  }

  /** A key-pattern match is the key, then what `AssignFrom` accepts after it. */
  lemma SearchedAssignmentShape(line: string, p: Pattern)
    requires Search(Assign(p), line).Some?
    ensures var m := Search(Assign(p), line).value;
      m.start <= |line| && AssignedAt(line, Key(line, m), Value(line, m), m.start)
  {
    var m := Search(Assign(p), line).value;
    AssignMatchShape(line, p, m);
  }

  lemma AssignMatchShape(line: string, p: Pattern, m: Match)
    requires m.start <= |line| && MatchAt(Assign(p), line, m.start) == Some(m)
    ensures AssignedAt(line, Key(line, m), Value(line, m), m.start)
  {
    FirstAssignValue(line, m.start, PatternEnds(p, line, m.start));
    AssignedAtShape(line, m);
  }

  /** A match whose value span is what `AssignFrom` accepts after its key is an assignment of its value to its key. */
  lemma AssignedAtShape(line: string, m: Match)
    requires WellFormed(m, line) && AssignFrom(line, m.keyEnd) == Some((m.valueStart, m.valueEnd))
    ensures AssignedAt(line, Key(line, m), Value(line, m), m.start)
  {
    var key := Key(line, m);
    assert m.start + |key| == m.keyEnd;
    assert OccursAt(line, key, m.start);
  }

  lemma SpliceChanges(line: string, a: nat, b: nat, v: string)
    requires a <= b <= |line| && line[a..b] != v
    ensures line[..a] + v + line[b..] != line
  {
    var r := line[..a] + v + line[b..];
    if |r| == |line| {
      assert |v| == b - a;
      assert r[a..b] == v;
    }
  }

  /** The spaced assignment that the as-written rewrite leaves alone is rewritten by the intended one. */
  lemma SpacedAssignmentRewrittenFixed()
    ensures RewriteLineFixed("device_id = abc", "device_id", "abc", "new") == Some("device_id = new")
  {
    var line := "device_id = abc";
    SpacedValueSpan();
    assert OccursAt(line, "device_id", 0);
    assert line[12..15] == "abc";
    assert AssignedSpan(line, "device_id", "abc", 0) == Some((12, 15));
    assert line[..12] + "new" + line[15..] == "device_id = new";
  }

  /** `_modify_text_id` with the intended line rewrite. */
  function ModifyTextId(content: Option<string>, lineNumber: nat, key: string, oldValue: string,
                        newValue: string, writeOk: bool): (r: Rewrite)
    ensures r.ok ==> r.written.TextFile?
    ensures !r.ok ==> r.written == Unchanged
  {
    if content.None? then Failed
    else
      var lines := ReadLines(content.value);
      match LineIndex(lines, lineNumber)
      case None => Failed
      case Some(i) =>
        match RewriteLineFixed(lines[i], key, oldValue, newValue)
        case None => Failed
        case Some(line) =>
          if line == lines[i] || !writeOk then Failed
          else Rewrite(true, TextFile(lines[i := line]))
  }

  /**
   * A successful intended text rewrite changes exactly the numbered line, and
   * there it puts the new value in place of the old one after the key.
   */
  lemma TextRewriteSpec(content: string, lineNumber: nat, key: string, oldValue: string, newValue: string)
    requires ModifyTextId(Some(content), lineNumber, key, oldValue, newValue, true).ok
    ensures var lines := ReadLines(content);
      var w := ModifyTextId(Some(content), lineNumber, key, oldValue, newValue, true).written.lines;
      var i := LineIndex(lines, lineNumber).value;
      |w| == |lines| && (forall j :: 0 <= j < |lines| && j != i ==> w[j] == lines[j])
      && exists a, b :: (0 <= a <= b <= |lines[i]| && lines[i][a..b] == oldValue
                         && w[i] == lines[i][..a] + newValue + lines[i][b..])
  {
  }

  // ---------------------------------------------------------- dispatch

  /** What `_modify_xml_id` looks for, from the record the search made. */
  function XmlTargetOf(r: Record): (t: Option<XmlTarget>)
    ensures t.Some? && r.loc.XmlElementAt? ==> t.value.TextTarget? && t.value.tag == r.key
    ensures t.Some? && r.loc.XmlAttributeAt? ==> t.value.AttrTarget? && t.value.name == r.key
  {
    match r.loc
    case XmlElementAt(_) =>
      (match r.value
       case JStr(s) => Some(TextTarget(r.key, Some(s)))
       case JNull => Some(TextTarget(r.key, None))
       case _ => None)
    case XmlAttributeAt(_) => if r.value.JStr? then Some(AttrTarget(r.key, r.value.s)) else None
    case _ => None
  }

  /**
   * `modify_telemetry_id`: the rewrite the record's format names, on what
   * the file's parsers make of it; an unknown format, or a record without
   * the fields its format's rewrite reads, fails.
   */
  function ModifyTelemetryId(r: Record, f: ConfigFile, newValue: string, writeOk: bool): (w: Rewrite)
    ensures w.ok ==> (r.format == "json" && w.written.JsonFile?) || (r.format == "ini" && w.written.IniFile?)
                     || (r.format == "xml" && w.written.XmlFile?) || (r.format == "text" && w.written.TextFile?)
    ensures w.ok ==> writeOk
    ensures !w.ok ==> w.written == Unchanged
  {
    if r.format == "json" then
      (if r.loc.JsonAt? then ModifyJsonId(f.json, r.loc.keyPath, newValue, writeOk) else Failed)
    else if r.format == "ini" then
      (if r.loc.IniAt? then ModifyIniId(f.ini, r.loc.section, r.key, newValue, writeOk) else Failed)
    else if r.format == "xml" then
      (match XmlTargetOf(r)
       case Some(t) => ModifyXmlId(f.xml, t, newValue, writeOk)
       case None => Failed)
    else if r.format == "text" then
      (if r.loc.TextAt? && r.value.JStr?
       then ModifyTextId(f.text, r.loc.lineNumber, r.key, r.value.s, newValue, writeOk)
       else Failed)
    else Failed
  }
  /**
   * `modify_telemetry_id` as written: the same dispatch, with text records
   * going through `ModifyTextIdAsWritten`.
   */
  function ModifyTelemetryIdAsWritten(r: Record, f: ConfigFile, newValue: string, writeOk: bool): (w: Rewrite)
    ensures r.format != "text" ==> w == ModifyTelemetryId(r, f, newValue, writeOk)
    ensures w.ok ==> writeOk
    ensures !w.ok ==> w.written == Unchanged
  {
    if r.format == "text" then
      (if r.loc.TextAt? && r.value.JStr?
       then ModifyTextIdAsWritten(f.text, r.loc.lineNumber, r.key, r.value.s, newValue, writeOk)
       else Failed)
    else ModifyTelemetryId(r, f, newValue, writeOk)
  }

  /**
   * The record the search makes of the one-line file `device_id = abc`
   * cannot be rewritten by the dispatcher as written.
   */
  lemma SpacedRecordFailsAsWritten(line: string, r: Record, f: ConfigFile, newValue: string)
    requires line == "device_id = abc"
    requires r.format == "text" && r.loc == TextAt(1, line) && r.key == "device_id" && r.value == JStr("abc")
    requires f.text == Some(line + "\n")
    ensures ModifyTelemetryIdAsWritten(r, f, newValue, true) == Failed
  {
    var m := Match(0, 9, 12, 15, 15);
    SpacedAssignmentNotRewritten(line, newValue);
    SpacedKeyValue(line, m);
  }

  /** The same record is rewritten by the intended dispatcher. */
  lemma SpacedRecordRewritten(line: string, r: Record, f: ConfigFile, newValue: string)
    requires line == "device_id = abc"
    requires r.format == "text" && r.loc == TextAt(1, line) && r.key == "device_id" && r.value == JStr("abc")
    requires f.text == Some(line + "\n") && newValue != "abc"
    ensures ModifyTelemetryId(r, f, newValue, true).ok
  {
    SpacedText(line);
    SpacedLineRewritten(line + "\n", newValue);
    OneLineRewritten(line, r.key, r.value.s, newValue);
    DispatchText(r, f, newValue, true);
  }

  /** The dispatcher sends a text record to the intended text rewrite of its line. */
  lemma DispatchText(r: Record, f: ConfigFile, newValue: string, writeOk: bool)
    requires r.format == "text" && r.loc.TextAt? && r.value.JStr?
    ensures ModifyTelemetryId(r, f, newValue, writeOk)
      == ModifyTextId(f.text, r.loc.lineNumber, r.key, r.value.s, newValue, writeOk)
  {
  }

  /** A one-line file whose line the intended line rewrite changes is rewritten. */
  lemma OneLineRewritten(line: string, key: string, oldValue: string, newValue: string)
    requires '\n' !in line
    requires RewriteLineFixed(line + "\n", key, oldValue, newValue).Some?
    requires RewriteLineFixed(line + "\n", key, oldValue, newValue).value != line + "\n"
    ensures ModifyTextId(Some(line + "\n"), 1, key, oldValue, newValue, true).ok
  {
    OneLine(line);
    assert LineIndex([line + "\n"], 1) == Some(0);
  }

  /** The line `device_id = abc` has no newline, and with one it is the file's text. */
  lemma SpacedText(line: string)
    requires line == "device_id = abc"
    ensures '\n' !in line && line + "\n" == "device_id = abc\n"
  {
  }

  /** The intended line rewrite changes the line `device_id = abc` with its newline. */
  lemma SpacedLineRewritten(text: string, newValue: string)
    requires text == "device_id = abc\n" && newValue != "abc"
    ensures RewriteLineFixed(text, "device_id", "abc", newValue).Some?
    ensures RewriteLineFixed(text, "device_id", "abc", newValue).value != text
  {
    SpacedValueSpanEnd(text);
    assert OccursAt(text, "device_id", 0);
    assert text[12..15] == "abc";
    assert AssignedAt(text, "device_id", "abc", 0);
    AssignedSpanFinds(text, "device_id", "abc", 0, 0);
    var w := RewriteLineFixed(text, "device_id", "abc", newValue);
    var a, b :| 0 <= a <= b <= |text| && text[a..b] == "abc" && w.value == text[..a] + newValue + text[b..];
    SpliceChanges(text, a, b, newValue);
  }

  lemma SpacedValueSpanEnd(text: string)
    requires text == "device_id = abc\n"
    ensures AssignFrom(text, 9) == Some((12, 15))
  {
    assert RunEnd(text, 9, Space) == 10;
    assert RunEnd(text, 11, Space) == 12;
    assert RunEnd(text, 15, NonSpace) == 15;
    assert RunEnd(text, 12, NonSpace) == 15;
  }
}
