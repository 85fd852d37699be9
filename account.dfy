// Account data: the e-mail addresses and user names found in the
// configuration files below the product directories, their removal from those
// files (every one found, or one target address), and the discovery report.
module Account {
  import opened Common
  import opened Patterns
  import opened Utils
  import opened Backup

  /** What every removed address or user name is replaced with. */
  const Removed: string := "[REMOVED]"

  // ---------------------------------------------------------------- extraction

  /** The seven user-name patterns, in the order they are tried, all case-insensitive. */
  const UsernameMatchers: seq<Matcher> := [
    Quoted("username"), Quoted("user"), Quoted("login"), Quoted("account"),
    Assign(Word("username")), Assign(Word("user")), Assign(Word("login"))]

  /** What one file yields: `emails`, `user_ids` and `usernames`. */
  datatype AccountData = AccountData(emails: seq<string>, userIds: seq<string>, usernames: seq<string>)

  /** The lists of `xss`, one after the other. */
  function Flatten<T>(xss: seq<seq<T>>): seq<T>
  {
    if xss == [] then [] else Flatten(xss[..|xss| - 1]) + xss[|xss| - 1]
  }

  lemma {:induction false} FlattenMember<T>(xss: seq<seq<T>>, x: T)
    ensures x in Flatten(xss) <==> exists k :: 0 <= k < |xss| && x in xss[k]
    decreases |xss|
  {
    if xss != [] {
      var init := xss[..|xss| - 1];
      FlattenMember(init, x);
      assert forall k :: 0 <= k < |init| ==> init[k] == xss[k];
    }
  }

  /** What `findall` returns for each pattern of `ms`. */
  function ValueLists(ms: seq<Matcher>, content: string): (r: seq<seq<string>>)
    ensures |r| == |ms| && forall k :: 0 <= k < |ms| ==> r[k] == FindAllValues(ms[k], content)
  {
    seq(|ms|, k requires 0 <= k < |ms| => FindAllValues(ms[k], content))
  }

  /** The values of every pattern in `ms`, pattern after pattern (`usernames.extend(findall(...))`). */
  function FoundValues(ms: seq<Matcher>, content: string): seq<string>
  {
    Flatten(ValueLists(ms, content))
  }

  lemma FoundValuesSnoc(ms: seq<Matcher>, content: string, k: nat)
    requires k < |ms|
    ensures FoundValues(ms[..k + 1], content) == FoundValues(ms[..k], content) + FindAllValues(ms[k], content)
  {
    var lists := ValueLists(ms[..k + 1], content);
    assert lists[..k] == ValueLists(ms[..k], content);
  }

  /** The filter `len(username) > 2 and not username.isdigit()`. */
  predicate PlausibleUsername(u: string)
  {
    |u| > 2 && !AllDigits(u)
  }

  function KeepPlausible(xs: seq<string>): (r: seq<string>)
    ensures |r| <= |xs|
    ensures forall u :: u in r <==> u in xs && PlausibleUsername(u)
  {
    if xs == [] then []
    else
      var x := xs[|xs| - 1];
      assert xs == xs[..|xs| - 1] + [x];
      KeepPlausible(xs[..|xs| - 1]) + (if PlausibleUsername(x) then [x] else [])
  }

  /**
   * `_extract_account_data_from_file` on the file's text (`None`: it cannot
   * be read, and the three lists stay empty).  Addresses are what the e-mail
   * pattern finds; user names are what any of the seven patterns finds and
   * the filter keeps; both lists are free of repeats, and `user_ids` is the
   * list of user names.
   */
  function ExtractAccountData(content: Option<string>): (d: AccountData)
    ensures d.userIds == d.usernames
    ensures Distinct(d.emails) && Distinct(d.usernames)
    ensures content.None? ==> d == AccountData([], [], [])
    ensures content.Some? ==> forall e :: e in d.emails <==> e in FindAllValues(Email, content.value)
    ensures content.Some? ==> forall u :: u in d.usernames <==>
      (PlausibleUsername(u)
       && exists k :: 0 <= k < |UsernameMatchers| && u in FindAllValues(UsernameMatchers[k], content.value))
  {
    match content
    case None => AccountData([], [], [])
    case Some(c) =>
      var lists := ValueLists(UsernameMatchers, c);
      assert forall u :: u in FoundValues(UsernameMatchers, c) <==> exists k :: 0 <= k < |lists| && u in lists[k] by {
        forall u ensures u in FoundValues(UsernameMatchers, c) <==> exists k :: 0 <= k < |lists| && u in lists[k] {
          FlattenMember(lists, u);
        }
      }
      var usernames := Dedup(KeepPlausible(FoundValues(UsernameMatchers, c)));
      AccountData(Dedup(FindAllValues(Email, c)), usernames, usernames)
  }

  /** The extraction, with its loop over the user-name patterns. */
  method ExtractAccountDataFromFile(content: Option<string>) returns (d: AccountData)
    ensures d == ExtractAccountData(content)
  {
    if content.None? {
      return AccountData([], [], []);
    }
    var c := content.value;
    var emails := Dedup(FindAllValues(Email, c));
    var found: seq<string> := [];
    var k := 0;
    while k < |UsernameMatchers|
      invariant 0 <= k <= |UsernameMatchers|
      invariant found == FoundValues(UsernameMatchers[..k], c)
    {
      FoundValuesSnoc(UsernameMatchers, c, k);
      found := found + FindAllValues(UsernameMatchers[k], c);
      k := k + 1;
    }
    assert UsernameMatchers[..k] == UsernameMatchers;
    var usernames := Dedup(KeepPlausible(found));
    d := AccountData(emails, usernames, usernames);
  }

  /**
   * A text that can be removed for good: non-empty, with an `@` (so that the
   * marker `[REMOVED]` cannot contain it) and without brackets (so that the
   * marker cannot complete it with its neighbours).
   */
  predicate Removable(e: string)
  {
    |e| > 0 && '@' in e && '[' !in e && ']' !in e
  }

  lemma MarkerLacks(e: string)
    requires Removable(e)
    ensures Removed[0] !in e && Removed[|Removed| - 1] !in e && !Contains(Removed, e)
  {
    var j :| 0 <= j < |e| && e[j] == '@';
  }

  /** Every address the e-mail pattern finds occurs in the text and can be removed for good. */
  lemma FoundEmailsRemovable(content: string, e: string)
    requires e in FindAllValues(Email, content)
    ensures Contains(content, e) && Removable(e)
  {
    FoundEmailsOccur(content, e);
    EmailTextRemovable(e);
  }

  lemma EmailTextRemovable(e: string)
    requires '@' in e && forall j :: 0 <= j < |e| ==> EmailChar(e[j])
    ensures Removable(e)
  {
    forall j | 0 <= j < |e| ensures e[j] != '[' && e[j] != ']' {
      assert EmailChar(e[j]);
    }
  }

  /** Every user name the extraction keeps is the value of one of the seven patterns at some place. */
  lemma ExtractedUsernameMatched(content: string, u: string) returns (k: nat, x: Match)
    requires u in ExtractAccountData(Some(content)).usernames
    ensures k < |UsernameMatchers| && x.start <= |content|
    ensures MatchAt(UsernameMatchers[k], content, x.start) == Some(x) && WellFormed(x, content)
    ensures u == Value(content, x) && |u| > 2 && !AllDigits(u)
  {
    k :| 0 <= k < |UsernameMatchers| && u in FindAllValues(UsernameMatchers[k], content);
    x := FoundValueMatched(UsernameMatchers[k], content, u);
  }

  // ------------------------------------------------------------ candidate files

  const AccountExtensions: seq<string> := [".json", ".ini", ".cfg", ".conf", ".xml", ".txt", ".log"]

  /** Files whose lowercased name contains one of these are passed over. */
  const SkipWords: seq<string> := ["temp", "cache", "backup"]

  predicate Candidate(e: Entry)
  {
    e.node.File? && Lower(Suffix(e.node.name)) in AccountExtensions
    && !ContainsAny(Lower(e.node.name), SkipWords)
  }

  /** The files `_find_config_files` keeps from a walk, in walk order. */
  function Candidates(es: seq<Entry>): seq<Path>
  {
    if es == [] then []
    else Candidates(es[..|es| - 1]) + (if Candidate(es[|es| - 1]) then [es[|es| - 1].path] else [])
  }

  /** `_find_config_files(base_path)`. */
  method FindAccountFiles(dir: Path, root: Option<Node>) returns (files: seq<Path>)
    ensures files == Candidates(Below(dir, root))
  {
    var entries := Below(dir, root);
    files := [];
    var i := 0;
    while i < |entries|
      invariant 0 <= i <= |entries|
      invariant files == Candidates(entries[..i])
    {
      files := KeepCandidate(entries, i, files);
      i := i + 1;
    }
    assert entries[..i] == entries;
  }

  /** One pass of the search loop: keep entry `i` if it is a candidate. */
  method KeepCandidate(entries: seq<Entry>, i: nat, files0: seq<Path>) returns (files: seq<Path>)
    requires i < |entries| && files0 == Candidates(entries[..i])
    ensures files == Candidates(entries[..i + 1])
  {
    TakeTake(entries, i + 1, i);
    files := files0;
    if Candidate(entries[i]) {
      files := files + [entries[i].path];
    }
  }

  lemma {:induction false} CandidatesSource(es: seq<Entry>, p: Path) returns (k: nat)
    requires p in Candidates(es)
    ensures k < |es| && es[k].path == p && Candidate(es[k])
    decreases |es|
  {
    var init := es[..|es| - 1];
    if p in Candidates(init) {
      k := CandidatesSource(init, p);
      assert es[k] == init[k];
    } else {
      k := |es| - 1;
    }
  }

  lemma {:induction false} CandidatesComplete(es: seq<Entry>, k: nat)
    requires k < |es| && Candidate(es[k])
    ensures es[k].path in Candidates(es)
    decreases |es|
  {
    if k < |es| - 1 {
      CandidatesComplete(es[..|es| - 1], k);
    }
  }

  lemma {:induction false} CandidatesDistinct(es: seq<Entry>)
    requires DistinctPaths(es)
    ensures Distinct(Candidates(es))
    decreases |es|
  {
    if es != [] {
      var init := es[..|es| - 1];
      var e := es[|es| - 1];
      CandidatesDistinct(init);
      if Candidate(e) {
        forall p | p in Candidates(init) ensures p != e.path {
          var k := CandidatesSource(init, p);
          assert es[k] == init[k];
        }
        DistinctSnoc(Candidates(init), e.path);
      }
    }
  }

  /**
   * The account search lists each file of a well-formed tree at most once:
   * exactly the files whose lowercased name ends in one of the seven
   * extensions after at least one other character and contains none of
   * `temp`, `cache`, `backup`.
   */
  lemma AccountFilesSpec(dir: Path, root: Option<Node>, p: Path)
    requires root.Some? && root.value.Dir? ==> WellFormedForest(root.value.children)
    ensures Distinct(Candidates(Below(dir, root)))
    ensures p in Candidates(Below(dir, root)) <==>
      exists k :: 0 <= k < |Below(dir, root)| && Below(dir, root)[k].path == p
        && Below(dir, root)[k].node.File?
        && HasExtension(Below(dir, root)[k].node.name, AccountExtensions)
        && !ContainsAny(Lower(Below(dir, root)[k].node.name), SkipWords)
  {
    var es := Below(dir, root);
    assert AreExtensions(AccountExtensions);
    if root.Some? && root.value.Dir? && root.value.readable {
      WalkDistinct(dir, root.value.children);
    }
    CandidatesDistinct(es);
    if p in Candidates(es) {
      var k := CandidatesSource(es, p);
      SuffixInIffExtension(es[k].node.name, AccountExtensions);
    }
    if exists k :: 0 <= k < |es| && es[k].path == p && es[k].node.File?
         && HasExtension(es[k].node.name, AccountExtensions) && !ContainsAny(Lower(es[k].node.name), SkipWords) {
      var k :| 0 <= k < |es| && es[k].path == p && es[k].node.File?
         && HasExtension(es[k].node.name, AccountExtensions) && !ContainsAny(Lower(es[k].node.name), SkipWords);
      SuffixInIffExtension(es[k].node.name, AccountExtensions);
      CandidatesComplete(es, k);
    }
  }

  // ----------------------------------------------------------------- discovery

  datatype AccountFile = AccountFile(file: Path, data: AccountData)

  /** `discovery_results`. */
  datatype Discovery = Discovery(emails: seq<string>, userIds: seq<string>, accountFiles: seq<AccountFile>,
                                 totalReferences: nat)

  /** Reading a file: its text, or `None` when it is not a readable file. */
  function Read(files: map<Path, string>, p: Path): Option<string>
  {
    if p in files then Some(files[p]) else None
  }

  /** The files searched below every root, root after root (a missing root adds none). */
  function Scanned(roots: seq<Root>): seq<Path>
  {
    if roots == [] then []
    else
      var r := roots[|roots| - 1];
      Scanned(roots[..|roots| - 1]) + Candidates(Below(r.path, r.node))
  }

  /**
   * One `account_files` entry per searched file: the dictionary extraction
   * returns always has its three keys, so `if account_data:` never fails.
   */
  function Extracted(paths: seq<Path>, files: map<Path, string>): (r: seq<AccountFile>)
    ensures |r| == |paths|
    ensures forall k :: 0 <= k < |paths| ==> r[k].file == paths[k]
  {
    if paths == [] then []
    else
      var p := paths[|paths| - 1];
      Extracted(paths[..|paths| - 1], files) + [AccountFile(p, ExtractAccountData(Read(files, p)))]
  }

  lemma {:induction false} ExtractedAppend(a: seq<Path>, b: seq<Path>, files: map<Path, string>)
    ensures Extracted(a + b, files) == Extracted(a, files) + Extracted(b, files)
    decreases |b|
  {
    if b == [] {
      assert a + b == a;
    } else {
      var init := b[..|b| - 1];
      assert (a + b)[..|a + b| - 1] == a + init;
      ExtractedAppend(a, init, files);
    }
  }

  /** All addresses of all entries, repeats included. */
  function AllEmails(afs: seq<AccountFile>): (r: seq<string>)
    ensures forall e :: e in r <==> exists k :: 0 <= k < |afs| && e in afs[k].data.emails
  {
    if afs == [] then []
    else
      var init := afs[..|afs| - 1];
      var r := AllEmails(init) + afs[|afs| - 1].data.emails;
      assert forall k :: 0 <= k < |init| ==> init[k] == afs[k];
      r
  }

  /** All user identifiers of all entries, repeats included. */
  function AllUserIds(afs: seq<AccountFile>): (r: seq<string>)
    ensures forall u :: u in r <==> exists k :: 0 <= k < |afs| && u in afs[k].data.userIds
  {
    if afs == [] then []
    else
      var init := afs[..|afs| - 1];
      var r := AllUserIds(init) + afs[|afs| - 1].data.userIds;
      assert forall k :: 0 <= k < |init| ==> init[k] == afs[k];
      r
  }

  /** `discover_account_data`: the sets become lists, and the total is the sum of their sizes. */
  function Discover(roots: seq<Root>, files: map<Path, string>): Discovery
  {
    var afs := Extracted(Scanned(roots), files);
    var emails := Dedup(AllEmails(afs));
    var ids := Dedup(AllUserIds(afs));
    Discovery(emails, ids, afs, |emails| + |ids|)
  }

  /**
   * Discovery lists every searched file, once per root that reaches it; its
   * address and identifier lists are the repeat-free unions over those files,
   * and the total is the sum of their lengths.
   */
  lemma DiscoverySpec(roots: seq<Root>, files: map<Path, string>, e: string)
    ensures var r := Discover(roots, files);
      && |r.accountFiles| == |Scanned(roots)|
      && (forall k :: 0 <= k < |r.accountFiles| ==> r.accountFiles[k].file == Scanned(roots)[k])
      && Distinct(r.emails) && Distinct(r.userIds)
      && r.totalReferences == |r.emails| + |r.userIds|
      && (e in r.emails <==> exists k :: 0 <= k < |r.accountFiles| && e in r.accountFiles[k].data.emails)
      && (e in r.userIds <==> exists k :: 0 <= k < |r.accountFiles| && e in r.accountFiles[k].data.userIds)
  {
  }

  // ------------------------------------------------------------------ cleaning

  /** The exhaustive mode's first loop: every address, by plain replacement. */
  function WithEmailsRemoved(content: string, emails: seq<string>): string
  {
    if emails == [] then content
    else ReplaceAll(WithEmailsRemoved(content, emails[..|emails| - 1]), emails[|emails| - 1], Removed)
  }

  /** The exhaustive mode's second loop: user names longer than four characters, as whole words. */
  function WithUsernamesRemoved(content: string, usernames: seq<string>): string
  {
    if usernames == [] then content
    else
      var c := WithUsernamesRemoved(content, usernames[..|usernames| - 1]);
      var u := usernames[|usernames| - 1];
      if |u| > 4 then ReplaceWord(c, u, Removed) else c
  }

  /** `target_email.split('@')[0]`. */
  function EmailPrefix(target: string): string
  {
    Split(target, '@')[0]
  }

  /** The targeted mode: the address everywhere, then its local part as a whole word if longer than three. */
  function WithTargetRemoved(content: string, target: string): string
  {
    var c := ReplaceAll(content, target, Removed);
    var prefix := EmailPrefix(target);
    if |prefix| > 3 then ReplaceWord(c, prefix, Removed) else c
  }

  /** The text `_clean_account_file` would write back. */
  function Cleaned(content: string, data: AccountData, target: string, removeAll: bool): string
  {
    if removeAll then WithUsernamesRemoved(WithEmailsRemoved(content, data.emails), data.usernames)
    else if target != [] then WithTargetRemoved(content, target)
    else content
  }

  method RemoveEmails(content: string, emails: seq<string>) returns (r: string)
    ensures r == WithEmailsRemoved(content, emails)
  {
    r := content;
    var i := 0;
    while i < |emails|
      invariant 0 <= i <= |emails|
      invariant r == WithEmailsRemoved(content, emails[..i])
    {
      TakeTake(emails, i + 1, i);
      r := ReplaceAll(r, emails[i], Removed);
      i := i + 1;
    }
    assert emails[..i] == emails;
  }

  method RemoveUsernames(content: string, usernames: seq<string>) returns (r: string)
    ensures r == WithUsernamesRemoved(content, usernames)
  {
    r := content;
    var i := 0;
    while i < |usernames|
      invariant 0 <= i <= |usernames|
      invariant r == WithUsernamesRemoved(content, usernames[..i])
    {
      TakeTake(usernames, i + 1, i);
      if |usernames[i]| > 4 {
        r := ReplaceWord(r, usernames[i], Removed);
      }
      i := i + 1;
    }
    assert usernames[..i] == usernames;
  }

  /** After the first loop no listed address is left, whatever the text. */
  lemma {:induction false} EmailsRemovedLeaveNone(content: string, emails: seq<string>, e: string)
    requires forall x :: x in emails ==> Removable(x)
    requires e in emails
    ensures !Contains(WithEmailsRemoved(content, emails), e)
    decreases |emails|
  {
    var init := emails[..|emails| - 1];
    var last := emails[|emails| - 1];
    var before := WithEmailsRemoved(content, init);
    MarkerLacks(last);
    if e == last {
      ReplaceAllLeavesNone(before, last, Removed);
    } else {
      assert e in init;
      EmailsRemovedLeaveNone(content, init, e);
      MarkerLacks(e);
      ReplaceAllKeepsAbsent(before, last, Removed, e);
    }
  }

  /** The second loop does not bring an address back. */
  lemma {:induction false} UsernamesKeepAbsent(content: string, usernames: seq<string>, e: string)
    requires Removable(e) && !Contains(content, e)
    ensures !Contains(WithUsernamesRemoved(content, usernames), e)
    decreases |usernames|
  {
    if usernames != [] {
      var init := usernames[..|usernames| - 1];
      var u := usernames[|usernames| - 1];
      UsernamesKeepAbsent(content, init, e);
      if |u| > 4 {
        var c := WithUsernamesRemoved(content, init);
        MarkerLacks(e);
        assert c[0..] == c;
        ReplaceWordKeepsAbsent(c, u, Removed, e, 0);
      }
    }
  }

  /** Exhaustive mode: no occurrence of any listed address is left in the text it writes. */
  lemma ExhaustiveRemovesEmails(content: string, data: AccountData, target: string, e: string)
    requires forall x :: x in data.emails ==> Removable(x)
    requires e in data.emails
    ensures !Contains(Cleaned(content, data, target, true), e)
  {
    EmailsRemovedLeaveNone(content, data.emails, e);
    UsernamesKeepAbsent(WithEmailsRemoved(content, data.emails), data.usernames, e);
  }

  /** Targeted mode: no occurrence of the target address is left. */
  lemma TargetedRemovesTarget(content: string, data: AccountData, target: string)
    requires Removable(target)
    ensures !Contains(Cleaned(content, data, target, false), target)
  {
    MarkerLacks(target);
    var c := ReplaceAll(content, target, Removed);
    ReplaceAllLeavesNone(content, target, Removed);
    var prefix := EmailPrefix(target);
    if |prefix| > 3 {
      assert c[0..] == c;
      ReplaceWordKeepsAbsent(c, prefix, Removed, target, 0);
    }
  }

  /**
   * Targeted mode keeps every other address that stands apart in the text:
   * one set off on both sides by a character the target lacks (the quotes
   * of a JSON string, say) and containing neither the target nor, when that
   * is substituted, the target's local part is still in the text written back.
   */
  lemma TargetedKeepsOthers(a: string, e: string, b: string, q: char, data: AccountData, target: string)
    requires target != [] && q !in target && !Contains(e, target)
    requires |EmailPrefix(target)| > 3 ==> !Contains(e, EmailPrefix(target))
    ensures Contains(Cleaned(a + [q] + e + [q] + b, data, target, false), e)
  {
    var a2 := ReplaceAll(a, target, Removed);
    var b2 := ReplaceAll(b, target, Removed);
    var c := ReplaceAll(a + [q] + e + [q] + b, target, Removed);
    ReplaceAllAround(a, e, b, q, target, Removed);
    assert c == a2 + [q] + e + [q] + b2;
    var prefix := EmailPrefix(target);
    if |prefix| > 3 {
      SplitHeadPrefix(target, '@');
      assert q !in prefix;
      WordKeepsDelimited(a2, e, b2, q, prefix, Removed);
    } else {
      assert c[|a2| + 1..|a2| + 1 + |e|] == e;
      OccursAtContains(c, e, |a2| + 1);
    }
  }

  /** Cleaning a file with what was extracted from it leaves none of its addresses behind. */
  lemma ExtractThenCleanLeavesNoEmail(content: string, target: string, e: string)
    requires e in ExtractAccountData(Some(content)).emails
    ensures !Contains(Cleaned(content, ExtractAccountData(Some(content)), target, true), e)
  {
    var data := ExtractAccountData(Some(content));
    forall x | x in data.emails ensures Removable(x) {
      FoundEmailsRemovable(content, x);
    }
    ExhaustiveRemovesEmails(content, data, target, e);
  }

  /** User names of at most four characters are never replaced. */
  lemma {:induction false} ShortUsernamesKept(content: string, usernames: seq<string>)
    requires forall u :: u in usernames ==> |u| <= 4
    ensures WithUsernamesRemoved(content, usernames) == content
    decreases |usernames|
  {
    if usernames != [] {
      ShortUsernamesKept(content, usernames[..|usernames| - 1]);
    }
  }

  /** `u` occurs nowhere in `s` as a whole word. */
  predicate NoWholeWord(s: string, u: string)
  {
    forall j :: 0 <= j < |s| ==> !WholeWordAt(s, u, j)
  }

  /**
   * Exhaustive mode on a text in which no listed address occurs and no
   * listed user name longer than four characters stands as a whole word
   * leaves the text as it is, so nothing is written.
   */
  lemma NothingFoundNothingChanged(content: string, data: AccountData, target: string)
    requires forall x :: x in data.emails ==> |x| > 0 && !Contains(content, x)
    requires forall u :: u in data.usernames && |u| > 4 ==> NoWholeWord(content, u)
    ensures Cleaned(content, data, target, true) == content
  {
    EmailsAbsentKept(content, data.emails);
    WordsAbsentKept(content, data.usernames);
  }

  lemma {:induction false} EmailsAbsentKept(content: string, emails: seq<string>)
    requires forall x :: x in emails ==> |x| > 0 && !Contains(content, x)
    ensures WithEmailsRemoved(content, emails) == content
    decreases |emails|
  {
    if emails != [] {
      EmailsAbsentKept(content, emails[..|emails| - 1]);
      ReplaceAllAbsent(content, emails[|emails| - 1], Removed);
    }
  }

  lemma {:induction false} WordsAbsentKept(content: string, usernames: seq<string>)
    requires forall u :: u in usernames && |u| > 4 ==> NoWholeWord(content, u)
    ensures WithUsernamesRemoved(content, usernames) == content
    decreases |usernames|
  {
    if usernames != [] {
      var u := usernames[|usernames| - 1];
      WordsAbsentKept(content, usernames[..|usernames| - 1]);
      if |u| > 4 {
        ReplaceWordNoMatch(content, u, Removed, 0);
      }
    }
  }

  /**
   * `remove_all` wins over a target address, a target's local part of at
   * most three characters is left alone, and with neither mode the text is
   * left as it is.
   */
  lemma ModePrecedence(content: string, data: AccountData, t1: string, t2: string)
    ensures Cleaned(content, data, t1, true) == Cleaned(content, data, t2, true)
    ensures Cleaned(content, data, [], false) == content
    ensures t1 != [] && |EmailPrefix(t1)| <= 3 ==> Cleaned(content, data, t1, false) == ReplaceAll(content, t1, Removed)
  {
  }

  /**
   * `_clean_account_file` on the disk `d`: it fails when the file cannot be
   * read, or when the text changed and cannot be written (`writeOk`); it
   * writes only that file.
   */
  function CleanFileOutcome(d: Disk, path: Path, data: AccountData, target: string, removeAll: bool, writeOk: bool): (r: Outcome)
    ensures r.ok <==> path in d.files && (writeOk || Cleaned(d.files[path], data, target, removeAll) == d.files[path])
    ensures r.disk.dirs == d.dirs && r.disk.manifests == d.manifests && r.disk.files.Keys == d.files.Keys
    ensures forall q :: q in d.files && q != path ==> r.disk.files[q] == d.files[q]
    ensures path in d.files ==>
      r.disk.files[path] == if r.ok then Cleaned(d.files[path], data, target, removeAll) else d.files[path]
  {
    if path !in d.files then Outcome(false, d)
    else
      var content := Cleaned(d.files[path], data, target, removeAll);
      if content == d.files[path] then Outcome(true, d)
      else if !writeOk then Outcome(false, d)
      else Outcome(true, d.(files := d.files[path := content]))
  }

  /**
   * Where a file's backup goes inside the backup directory: under
   * `account_files`, at the file's whole path (the source writes
   * `account_files/<name>`, which collides for two files of one name; see
   * `Backup.NamedDestinationsCollide`).
   */
  function BackupRelative(p: Path): (rel: Path)
    ensures |rel| == |p| + 1 && rel[0] == "account_files" && rel[1..] == p
  {
    KeepingRelative("account_files", p)
  }

  /**
   * One pass of the loop in `clean_account_data`: back the file up; if that
   * fails, skip the file and record the failure; otherwise clean it.
   */
  function CleanStep(o: Outcome, dir: Path, af: AccountFile, target: string, removeAll: bool,
                     copyOk: bool, writeOk: bool): (r: Outcome)
    ensures r.ok == (o.ok && StepOk(o.disk, dir, af, target, removeAll, copyOk, writeOk))
    ensures !BackupFileOutcome(o.disk, af.file, dir, BackupRelative(af.file), copyOk).ok ==>
      !r.ok && r.disk.files == o.disk.files
  {
    var b := BackupFileOutcome(o.disk, af.file, dir, BackupRelative(af.file), copyOk);
    if !b.ok then Outcome(false, b.disk)
    else
      var c := CleanFileOutcome(b.disk, af.file, af.data, target, removeAll, writeOk);
      Outcome(o.ok && c.ok, c.disk)
  }

  /** The whole loop over `account_files`, from a successful start. */
  function CleanRun(d: Disk, dir: Path, afs: seq<AccountFile>, target: string, removeAll: bool,
                    copyOk: seq<bool>, writeOk: seq<bool>): Outcome
    requires |copyOk| == |afs| && |writeOk| == |afs|
  {
    if afs == [] then Outcome(true, d)
    else
      var n := |afs| - 1;
      CleanStep(CleanRun(d, dir, afs[..n], target, removeAll, copyOk[..n], writeOk[..n]),
                dir, afs[n], target, removeAll, copyOk[n], writeOk[n])
  }

  lemma CleanRunSnoc(d: Disk, dir: Path, afs: seq<AccountFile>, target: string, removeAll: bool,
                     copyOk: seq<bool>, writeOk: seq<bool>, i: nat)
    requires |copyOk| == |afs| && |writeOk| == |afs| && i < |afs|
    ensures CleanRun(d, dir, afs[..i + 1], target, removeAll, copyOk[..i + 1], writeOk[..i + 1])
         == CleanStep(CleanRun(d, dir, afs[..i], target, removeAll, copyOk[..i], writeOk[..i]),
                      dir, afs[i], target, removeAll, copyOk[i], writeOk[i])
  {
    TakeTake(afs, i + 1, i);
    TakeTake(copyOk, i + 1, i);
    TakeTake(writeOk, i + 1, i);
  }

  /** The disk before the pass over file `k`. */
  function DiskBefore(d: Disk, dir: Path, afs: seq<AccountFile>, target: string, removeAll: bool,
                      copyOk: seq<bool>, writeOk: seq<bool>, k: nat): Disk
    requires |copyOk| == |afs| && |writeOk| == |afs| && k <= |afs|
  {
    CleanRun(d, dir, afs[..k], target, removeAll, copyOk[..k], writeOk[..k]).disk
  }

  /** A pass on the disk `before` backs the file up and cleans it without an error. */
  predicate StepOk(before: Disk, dir: Path, af: AccountFile, target: string, removeAll: bool,
                   copyOk: bool, writeOk: bool)
  {
    var b := BackupFileOutcome(before, af.file, dir, BackupRelative(af.file), copyOk);
    b.ok && CleanFileOutcome(b.disk, af.file, af.data, target, removeAll, writeOk).ok
  }

  /** Whether each pass succeeded, each judged on the disk the passes before it left. */
  function PassResults(d: Disk, dir: Path, afs: seq<AccountFile>, target: string, removeAll: bool,
                       copyOk: seq<bool>, writeOk: seq<bool>): (r: seq<bool>)
    requires |copyOk| == |afs| && |writeOk| == |afs|
    ensures |r| == |afs|
  {
    if afs == [] then []
    else
      var n := |afs| - 1;
      PassResults(d, dir, afs[..n], target, removeAll, copyOk[..n], writeOk[..n])
      + [StepOk(CleanRun(d, dir, afs[..n], target, removeAll, copyOk[..n], writeOk[..n]).disk,
                dir, afs[n], target, removeAll, copyOk[n], writeOk[n])]
  }

  /**
   * `clean_account_data` succeeds iff every pass backed its file up and
   * cleaned it; a failure does not stop the loop, since every pass runs on
   * the disk the previous one left, whatever it reported.
   */
  lemma {:induction false} CleanRunSucceeds(d: Disk, dir: Path, afs: seq<AccountFile>, target: string, removeAll: bool,
                                            copyOk: seq<bool>, writeOk: seq<bool>)
    requires |copyOk| == |afs| && |writeOk| == |afs|
    ensures var passes := PassResults(d, dir, afs, target, removeAll, copyOk, writeOk);
      CleanRun(d, dir, afs, target, removeAll, copyOk, writeOk).ok <==> forall k :: 0 <= k < |passes| ==> passes[k]
    decreases |afs|
  {
    if afs != [] {
      var n := |afs| - 1;
      var last := CleanRunLast(d, dir, afs, target, removeAll, copyOk, writeOk);
      CleanRunSucceeds(d, dir, afs[..n], target, removeAll, copyOk[..n], writeOk[..n]);
      AllTrueSnoc(PassResults(d, dir, afs[..n], target, removeAll, copyOk[..n], writeOk[..n]), last);
    }
  }

  /** The last pass adds its own success to the run's result and to the list of pass results. */
  lemma CleanRunLast(d: Disk, dir: Path, afs: seq<AccountFile>, target: string, removeAll: bool,
                     copyOk: seq<bool>, writeOk: seq<bool>) returns (last: bool)
    requires |copyOk| == |afs| && |writeOk| == |afs| && afs != []
    ensures var n := |afs| - 1;
      && CleanRun(d, dir, afs, target, removeAll, copyOk, writeOk).ok
         == (CleanRun(d, dir, afs[..n], target, removeAll, copyOk[..n], writeOk[..n]).ok && last)
      && PassResults(d, dir, afs, target, removeAll, copyOk, writeOk)
         == PassResults(d, dir, afs[..n], target, removeAll, copyOk[..n], writeOk[..n]) + [last]
  {
    var n := |afs| - 1;
    var prev := CleanRun(d, dir, afs[..n], target, removeAll, copyOk[..n], writeOk[..n]);
    last := StepOk(prev.disk, dir, afs[n], target, removeAll, copyOk[n], writeOk[n]);
  }

  lemma AllTrueSnoc(bs: seq<bool>, b: bool)
    ensures (forall k :: 0 <= k < |bs + [b]| ==> (bs + [b])[k]) <==> (forall k :: 0 <= k < |bs| ==> bs[k]) && b
  {
    assert (bs + [b])[|bs|] == b;
    assert forall k :: 0 <= k < |bs| ==> (bs + [b])[k] == bs[k];
  }

  /** Pass `k`'s entry is judged on the disk the first `k` passes left. */
  lemma {:induction false} PassResultsAt(d: Disk, dir: Path, afs: seq<AccountFile>, target: string, removeAll: bool,
                                         copyOk: seq<bool>, writeOk: seq<bool>, k: nat)
    requires |copyOk| == |afs| && |writeOk| == |afs| && k < |afs|
    ensures PassResults(d, dir, afs, target, removeAll, copyOk, writeOk)[k]
         == StepOk(DiskBefore(d, dir, afs, target, removeAll, copyOk, writeOk, k), dir, afs[k], target, removeAll,
                   copyOk[k], writeOk[k])
    decreases |afs|
  {
    var n := |afs| - 1;
    var a0, c0, w0 := afs[..n], copyOk[..n], writeOk[..n];
    var init := PassResults(d, dir, a0, target, removeAll, c0, w0);
    var last := StepOk(CleanRun(d, dir, a0, target, removeAll, c0, w0).disk, dir, afs[n], target, removeAll, copyOk[n], writeOk[n]);
    assert PassResults(d, dir, afs, target, removeAll, copyOk, writeOk) == init + [last];
    if k < n {
      PassResultsAt(d, dir, a0, target, removeAll, c0, w0, k);
      TakeTake(afs, n, k);
      TakeTake(copyOk, n, k);
      TakeTake(writeOk, n, k);
      assert DiskBefore(d, dir, a0, target, removeAll, c0, w0, k) == DiskBefore(d, dir, afs, target, removeAll, copyOk, writeOk, k);
      assert a0[k] == afs[k] && c0[k] == copyOk[k] && w0[k] == writeOk[k];
    } else {
      assert DiskBefore(d, dir, afs, target, removeAll, copyOk, writeOk, k) == CleanRun(d, dir, a0, target, removeAll, c0, w0).disk;
    }
  }

  /** A file whose backup fails is not touched: the pass leaves every file's content as it was. */
  lemma SkippedFileUntouched(d: Disk, dir: Path, afs: seq<AccountFile>, target: string, removeAll: bool,
                             copyOk: seq<bool>, writeOk: seq<bool>, k: nat)
    requires |copyOk| == |afs| && |writeOk| == |afs| && k < |afs|
    requires !BackupFileOutcome(DiskBefore(d, dir, afs, target, removeAll, copyOk, writeOk, k),
                                afs[k].file, dir, BackupRelative(afs[k].file), copyOk[k]).ok
    ensures DiskBefore(d, dir, afs, target, removeAll, copyOk, writeOk, k + 1).files
         == DiskBefore(d, dir, afs, target, removeAll, copyOk, writeOk, k).files
    ensures !CleanRun(d, dir, afs[..k + 1], target, removeAll, copyOk[..k + 1], writeOk[..k + 1]).ok
  {
    TakeTake(afs, k + 1, k);
    TakeTake(copyOk, k + 1, k);
    TakeTake(writeOk, k + 1, k);
  }

  /**
   * A file whose backup succeeds is cleaned even after earlier failures:
   * when it can be written, it then holds the cleaned text.
   */
  lemma BackedUpFileCleaned(d: Disk, dir: Path, afs: seq<AccountFile>, target: string, removeAll: bool,
                            copyOk: seq<bool>, writeOk: seq<bool>, k: nat)
    requires |copyOk| == |afs| && |writeOk| == |afs| && k < |afs| && writeOk[k]
    requires var b := BackupFileOutcome(DiskBefore(d, dir, afs, target, removeAll, copyOk, writeOk, k),
                                        afs[k].file, dir, BackupRelative(afs[k].file), copyOk[k]);
      b.ok && afs[k].file in b.disk.files
    ensures var b := BackupFileOutcome(DiskBefore(d, dir, afs, target, removeAll, copyOk, writeOk, k),
                                       afs[k].file, dir, BackupRelative(afs[k].file), copyOk[k]);
      afs[k].file in DiskBefore(d, dir, afs, target, removeAll, copyOk, writeOk, k + 1).files
      && DiskBefore(d, dir, afs, target, removeAll, copyOk, writeOk, k + 1).files[afs[k].file]
        == Cleaned(b.disk.files[afs[k].file], afs[k].data, target, removeAll)
  {
    TakeTake(afs, k + 1, k);
    TakeTake(copyOk, k + 1, k);
    TakeTake(writeOk, k + 1, k);
  }

  // -------------------------------------------------------------------- report

  const ReportTitle: string := "=== ACCOUNT DATA DISCOVERY REPORT ==="
  const EmailCountLabel: string := "  Email addresses found: "
  const UserIdCountLabel: string := "  User identifiers found: "
  const FileCountLabel: string := "  Files containing account data: "

  /** The most user identifiers the report lists one by one. */
  const ListedIds: nat := 10

  function Bullet(x: string): string
  {
    "  \U{2022} " + x
  }

  /** One bullet line per element, in order. */
  function Bullets(xs: seq<string>): (r: seq<string>)
    ensures |r| == |xs| && forall k :: 0 <= k < |xs| ==> r[k] == Bullet(xs[k])
  {
    if xs == [] then [] else Bullets(xs[..|xs| - 1]) + [Bullet(xs[|xs| - 1])]
  }

  function SummaryLines(r: Discovery): seq<string>
  {
    [ReportTitle, "", "Summary:",
     EmailCountLabel + NatToString(|r.emails|),
     UserIdCountLabel + NatToString(|r.userIds|),
     FileCountLabel + NatToString(|r.accountFiles|),
     ""]
  }

  function EmailSection(emails: seq<string>): seq<string>
  {
    if emails == [] then [] else ["Found Email Addresses:"] + Bullets(emails) + [""]
  }

  function MoreLine(n: nat): string
  {
    "  ... and " + NatToString(n) + " more"
  }

  function IdSection(ids: seq<string>): seq<string>
  {
    if ids == [] then []
    else if |ids| <= ListedIds then ["Found User Identifiers:"] + Bullets(ids) + [""]
    else ["Found User Identifiers:"] + Bullets(ids[..ListedIds]) + [MoreLine(|ids| - ListedIds), ""]
  }

  function FileLines(af: AccountFile): seq<string>
  {
    ["  File: " + PathText(af.file)]
    + (if af.data.emails != [] then ["    Emails: " + NatToString(|af.data.emails|)] else [])
    + (if af.data.userIds != [] then ["    User IDs: " + NatToString(|af.data.userIds|)] else [])
    + [""]
  }

  function AllFileLines(afs: seq<AccountFile>): seq<string>
  {
    if afs == [] then [] else AllFileLines(afs[..|afs| - 1]) + FileLines(afs[|afs| - 1])
  }

  lemma AllFileLinesSnoc(afs: seq<AccountFile>, i: nat)
    requires i < |afs|
    ensures AllFileLines(afs[..i + 1]) == AllFileLines(afs[..i]) + FileLines(afs[i])
  {
    TakeTake(afs, i + 1, i);
  }

  function FileSection(afs: seq<AccountFile>): seq<string>
  {
    if afs == [] then [] else ["Files Containing Account Data:"] + AllFileLines(afs)
  }

  function ReportLines(r: Discovery): seq<string>
  {
    SummaryLines(r) + EmailSection(r.emails) + IdSection(r.userIds) + FileSection(r.accountFiles)
  }

  method AppendBullets(lines0: seq<string>, xs: seq<string>) returns (lines: seq<string>)
    ensures lines == lines0 + Bullets(xs)
  {
    lines := lines0;
    var i := 0;
    while i < |xs|
      invariant 0 <= i <= |xs|
      invariant lines == lines0 + Bullets(xs[..i])
    {
      TakeTake(xs, i + 1, i);
      lines := lines + [Bullet(xs[i])];
      i := i + 1;
    }
    assert xs[..i] == xs;
  }

  method AppendFileLines(lines0: seq<string>, afs: seq<AccountFile>) returns (lines: seq<string>)
    ensures lines == lines0 + AllFileLines(afs)
  {
    lines := lines0;
    var i := 0;
    while i < |afs|
      invariant 0 <= i <= |afs|
      invariant lines == lines0 + AllFileLines(afs[..i])
    {
      AllFileLinesSnoc(afs, i);
      lines := AppendFileEntry(lines, afs[i]);
      ConcatAssoc(lines0, AllFileLines(afs[..i]), FileLines(afs[i]));
      i := i + 1;
    }
    assert afs[..i] == afs;
  }

  /** The lines one account file adds to the report. */
  method AppendFileEntry(lines0: seq<string>, af: AccountFile) returns (lines: seq<string>)
    ensures lines == lines0 + FileLines(af)
  {
    var data := af.data;
    lines := lines0 + ["  File: " + PathText(af.file)];
    if data.emails != [] {
      lines := lines + ["    Emails: " + NatToString(|data.emails|)];
    }
    if data.userIds != [] {
      lines := lines + ["    User IDs: " + NatToString(|data.userIds|)];
    }
    lines := lines + [""];
  }

  method AppendEmailSection(lines0: seq<string>, emails: seq<string>) returns (lines: seq<string>)
    ensures lines == lines0 + EmailSection(emails)
  {
    lines := lines0;
    if emails != [] {
      lines := AppendBullets(lines + ["Found Email Addresses:"], emails);
      lines := lines + [""];
    }
  }

  method AppendIdSection(lines0: seq<string>, ids: seq<string>) returns (lines: seq<string>)
    ensures lines == lines0 + IdSection(ids)
  {
    lines := lines0;
    if ids != [] {
      var shown := if |ids| <= ListedIds then ids else ids[..ListedIds];
      ghost var head := ["Found User Identifiers:"] + Bullets(shown);
      lines := AppendBullets(lines + ["Found User Identifiers:"], shown);
      assert lines == lines0 + head;
      if |ids| > ListedIds {
        lines := lines + [MoreLine(|ids| - ListedIds)];
        lines := lines + [""];
        assert lines == lines0 + (head + [MoreLine(|ids| - ListedIds), ""]);
      } else {
        lines := lines + [""];
        assert lines == lines0 + (head + [""]);
      }
    }
  }

  method AppendFileSection(lines0: seq<string>, afs: seq<AccountFile>) returns (lines: seq<string>)
    ensures lines == lines0 + FileSection(afs)
  {
    lines := lines0;
    if afs != [] {
      lines := AppendFileLines(lines + ["Files Containing Account Data:"], afs);
    }
  }

  /** `generate_account_report`. */
  method GenerateAccountReport(r: Discovery) returns (report: string)
    ensures report == Join(ReportLines(r), '\n')
  {
    var lines := SummaryLines(r);
    lines := AppendEmailSection(lines, r.emails);
    lines := AppendIdSection(lines, r.userIds);
    lines := AppendFileSection(lines, r.accountFiles);
    report := Join(lines, '\n');
  }

  /** The three summary counts read back as the sizes they report. */
  lemma ReportCountsRoundTrip(r: Discovery)
    ensures var lines := ReportLines(r);
      && StartsWith(lines[3], EmailCountLabel) && ParseNat(lines[3][|EmailCountLabel|..]) == |r.emails|
      && StartsWith(lines[4], UserIdCountLabel) && ParseNat(lines[4][|UserIdCountLabel|..]) == |r.userIds|
      && StartsWith(lines[5], FileCountLabel) && ParseNat(lines[5][|FileCountLabel|..]) == |r.accountFiles|
  {
    var lines := ReportLines(r);
    assert lines[3] == EmailCountLabel + NatToString(|r.emails|);
    assert lines[4] == UserIdCountLabel + NatToString(|r.userIds|);
    assert lines[5] == FileCountLabel + NatToString(|r.accountFiles|);
    assert lines[3][|EmailCountLabel|..] == NatToString(|r.emails|);
    assert lines[4][|UserIdCountLabel|..] == NatToString(|r.userIds|);
    assert lines[5][|FileCountLabel|..] == NatToString(|r.accountFiles|);
    ParseNatToString(|r.emails|);
    ParseNatToString(|r.userIds|);
    ParseNatToString(|r.accountFiles|);
  }

  /** Every discovered address has its own line in the report. */
  lemma ReportListsEveryEmail(r: Discovery, e: string)
    requires e in r.emails
    ensures Bullet(e) in ReportLines(r)
  {
    var k :| 0 <= k < |r.emails| && r.emails[k] == e;
    EmailSectionAt(r.emails, k);
    var front := SummaryLines(r) + EmailSection(r.emails);
    assert ReportLines(r) == front + IdSection(r.userIds) + FileSection(r.accountFiles);
    assert ReportLines(r)[|SummaryLines(r)| + k + 1] == front[|SummaryLines(r)| + k + 1];
  }

  /** The address `k` of the email section is its line `k + 1`. */
  lemma EmailSectionAt(emails: seq<string>, k: nat)
    requires k < |emails|
    ensures |EmailSection(emails)| == |emails| + 2 && EmailSection(emails)[k + 1] == Bullet(emails[k])
  {
    assert EmailSection(emails) == ["Found Email Addresses:"] + Bullets(emails) + [""];
  }

  /**
   * The identifier section lists the first ten identifiers one per line; past
   * ten it adds one line whose count, added to the ten listed, gives the
   * number of identifiers.
   */
  lemma IdSectionCapped(ids: seq<string>)
    requires ids != []
    ensures var s := IdSection(ids);
      && |s| == 2 + Min(|ids|, ListedIds) + (if |ids| > ListedIds then 1 else 0)
      && (forall k :: 0 <= k < Min(|ids|, ListedIds) ==> s[k + 1] == Bullet(ids[k]))
      && (|ids| > ListedIds ==>
            StartsWith(s[ListedIds + 1], "  ... and ")
            && ListedIds + ParseNat(s[ListedIds + 1][10..|s[ListedIds + 1]| - 5]) == |ids|)
  {
    var s := IdSection(ids);
    if |ids| > ListedIds {
      var b := Bullets(ids[..ListedIds]);
      var line := MoreLine(|ids| - ListedIds);
      assert s == ["Found User Identifiers:"] + b + [line, ""];
      assert s[ListedIds + 1] == line;
      assert forall k :: 0 <= k < ListedIds ==> s[k + 1] == b[k];
      assert line[10..|line| - 5] == NatToString(|ids| - ListedIds);
      ParseNatToString(|ids| - ListedIds);
    } else {
      var b := Bullets(ids);
      assert s == ["Found User Identifiers:"] + b + [""];
      assert forall k :: 0 <= k < |ids| ==> s[k + 1] == b[k];
    }
  }

  function Min(a: nat, b: nat): nat
  {
    if a <= b then a else b
  }

  // ------------------------------------------------------------------ the cleaner

  /**
   * `AccountDataCleaner`.  Files are read and written on the disk its
   * `BackupManager` holds, which is the disk backups are copied on.
   */
  class AccountDataCleaner {
    const backupManager: BackupManager

    constructor (manager: BackupManager)
      ensures backupManager == manager
    {
      backupManager := manager;
    }

    /** `discover_account_data` over a snapshot of each search root. */
    method DiscoverAccountData(roots: seq<Root>) returns (r: Discovery)
      ensures r == Discover(roots, backupManager.disk.files)
    {
      var files := backupManager.disk.files;
      var afs: seq<AccountFile> := [];
      var emails: seq<string> := [];
      var ids: seq<string> := [];
      var i := 0;
      while i < |roots|
        invariant 0 <= i <= |roots|
        invariant afs == Extracted(Scanned(roots[..i]), files)
        invariant emails == AllEmails(afs) && ids == AllUserIds(afs)
      {
        TakeTake(roots, i + 1, i);
        var found := Candidates(Below(roots[i].path, roots[i].node));
        ExtractedAppend(Scanned(roots[..i]), found, files);
        afs, emails, ids := ScanRoot(roots[i], files, afs, emails, ids);
        i := i + 1;
      }
      assert roots[..i] == roots;
      var uniqueEmails := Dedup(emails);
      var uniqueIds := Dedup(ids);
      r := Discovery(uniqueEmails, uniqueIds, afs, |uniqueEmails| + |uniqueIds|);
    }

    /** The body of the discovery loop for one root. */
    method ScanRoot(root: Root, files: map<Path, string>, afs0: seq<AccountFile>,
                    emails0: seq<string>, ids0: seq<string>)
      returns (afs: seq<AccountFile>, emails: seq<string>, ids: seq<string>)
      requires emails0 == AllEmails(afs0) && ids0 == AllUserIds(afs0)
      ensures afs == afs0 + Extracted(Candidates(Below(root.path, root.node)), files)
      ensures emails == AllEmails(afs) && ids == AllUserIds(afs)
    {
      afs, emails, ids := afs0, emails0, ids0;
      if root.node.None? {
        return;
      }
      var paths := FindAccountFiles(root.path, root.node);
      var j := 0;
      while j < |paths|
        invariant 0 <= j <= |paths|
        invariant afs == afs0 + Extracted(paths[..j], files)
        invariant emails == AllEmails(afs) && ids == AllUserIds(afs)
      {
        afs, emails, ids := ScanFile(files, paths, j, afs0, afs, emails, ids);
        j := j + 1;
      }
      assert paths[..j] == paths;
    }

    /** One pass of the inner discovery loop: extract file `j` and add what it holds. */
    method ScanFile(files: map<Path, string>, paths: seq<Path>, j: nat, ghost afs0: seq<AccountFile>,
                    afs1: seq<AccountFile>, emails1: seq<string>, ids1: seq<string>)
      returns (afs: seq<AccountFile>, emails: seq<string>, ids: seq<string>)
      requires j < |paths|
      requires afs1 == afs0 + Extracted(paths[..j], files)
      requires emails1 == AllEmails(afs1) && ids1 == AllUserIds(afs1)
      ensures afs == afs0 + Extracted(paths[..j + 1], files)
      ensures emails == AllEmails(afs) && ids == AllUserIds(afs)
    {
      TakeTake(paths, j + 1, j);
      var data := ExtractAccountDataFromFile(Read(files, paths[j]));
      var entry := AccountFile(paths[j], data);
      afs := afs1 + [entry];
      assert afs[..|afs1|] == afs1;
      emails := emails1 + data.emails;
      ids := ids1 + data.userIds;
    }

    /** `_clean_account_file`. */
    method CleanAccountFile(path: Path, data: AccountData, target: string, removeAll: bool, writeOk: bool)
      returns (ok: bool)
      modifies backupManager
      ensures Outcome(ok, backupManager.disk)
           == CleanFileOutcome(old(backupManager.disk), path, data, target, removeAll, writeOk)
    {
      var disk := backupManager.disk;
      if path !in disk.files {
        return false;
      }
      var original := disk.files[path];
      var content := original;
      if removeAll {
        content := RemoveEmails(content, data.emails);
        content := RemoveUsernames(content, data.usernames);
      } else if target != [] {
        content := ReplaceAll(content, target, Removed);
        var prefix := Split(target, '@')[0];
        if |prefix| > 3 {
          content := ReplaceWord(content, prefix, Removed);
        }
      }
      if content != original {
        if !writeOk {
          return false;
        }
        backupManager.disk := disk.(files := disk.files[path := content]);
      }
      ok := true;
    }

    /** `clean_account_data`; `copyOk[k]` and `writeOk[k]` say whether file `k` can be copied and written. */
    method CleanAccountData(dir: Path, target: string, removeAll: bool, afs: seq<AccountFile>,
                            copyOk: seq<bool>, writeOk: seq<bool>) returns (success: bool)
      requires |copyOk| == |afs| && |writeOk| == |afs|
      modifies backupManager
      ensures Outcome(success, backupManager.disk)
           == CleanRun(old(backupManager.disk), dir, afs, target, removeAll, copyOk, writeOk)
    {
      ghost var start := backupManager.disk;
      success := true;
      var i := 0;
      while i < |afs|
        invariant 0 <= i <= |afs|
        invariant Outcome(success, backupManager.disk)
               == CleanRun(start, dir, afs[..i], target, removeAll, copyOk[..i], writeOk[..i])
      {
        success := CleanPass(dir, target, removeAll, afs, copyOk, writeOk, i, start, success);
        i := i + 1;
      }
      assert afs[..i] == afs && copyOk[..i] == copyOk && writeOk[..i] == writeOk;
    }
  
    /** One pass of the loop in `clean_account_data`, over file `i`. */
    method CleanPass(dir: Path, target: string, removeAll: bool, afs: seq<AccountFile>,
                     copyOk: seq<bool>, writeOk: seq<bool>, i: nat, ghost start: Disk, success0: bool)
      returns (success: bool)
      requires |copyOk| == |afs| && |writeOk| == |afs| && i < |afs|
      requires Outcome(success0, backupManager.disk)
            == CleanRun(start, dir, afs[..i], target, removeAll, copyOk[..i], writeOk[..i])
      modifies backupManager
      ensures Outcome(success, backupManager.disk)
           == CleanRun(start, dir, afs[..i + 1], target, removeAll, copyOk[..i + 1], writeOk[..i + 1])
    {
      CleanRunSnoc(start, dir, afs, target, removeAll, copyOk, writeOk, i);
      ghost var before := Outcome(success0, backupManager.disk);
      success := success0;
      var file := afs[i].file;
      var backedUp := backupManager.BackupFile(file, dir, BackupRelative(file), copyOk[i]);
      if !backedUp {
        success := false;
      } else {
        var cleaned := CleanAccountFile(file, afs[i].data, target, removeAll, writeOk[i]);
        if !cleaned {
          success := false;
        }
      }
      assert Outcome(success, backupManager.disk)
          == CleanStep(before, dir, afs[i], target, removeAll, copyOk[i], writeOk[i]);
    }
  }
}
