// The handful of fixed regular expressions the cleaners use, simulated as the
// backtracking engine runs them (leftmost start, greedy quantifiers tried
// longest first), over ASCII character classes:
//
//   email      \b[A-Za-z0-9._%+-]+@[A-Za-z0-9.-]+\.[A-Z|a-z]{2,}\b
//   assignment (<pattern>)\s*[=:]\s*([^\s\n]+)          case-insensitive
//   quoted     "<key>":\s*"([^"]+)"                      case-insensitive
//   word       \b<literal>\b                             case-sensitive, in re.sub
//
// `<pattern>` is either a literal word or `a[_-]?b`.
module Patterns {
  import opened Common

  // ---------------------------------------------------------- word boundaries

  predicate WordAt(s: string, i: int) { 0 <= i < |s| && IsWordChar(s[i]) }

  /** `\b` between positions `i - 1` and `i`. */
  predicate Boundary(s: string, i: int) { WordAt(s, i - 1) != WordAt(s, i) }

  // ------------------------------------------------------------ character runs

  datatype CharClass = LocalPart | DomainPart | TldPart | Space | NonSpace | NonQuote

  predicate InClass(c: char, k: CharClass)
  {
    match k
    case LocalPart => IsAlnum(c) || c == '.' || c == '_' || c == '%' || c == '+' || c == '-'
    case DomainPart => IsAlnum(c) || c == '.' || c == '-'
    case TldPart => IsLetter(c) || c == '|'
    case Space => IsSpace(c)
    case NonSpace => !IsSpace(c)
    case NonQuote => c != '"'
  }

  /** End of the longest run of class-`k` characters that starts at `i`. */
  function RunEnd(s: string, i: nat, k: CharClass): (e: nat)
    requires i <= |s|
    ensures i <= e <= |s|
    ensures forall j :: i <= j < e ==> InClass(s[j], k)
    ensures e == |s| || !InClass(s[e], k)
    decreases |s| - i
  {
    if i < |s| && InClass(s[i], k) then RunEnd(s, i + 1, k) else i
  }

  /** Characters an email match can consist of. */
  predicate EmailChar(c: char)
  {
    InClass(c, LocalPart) || InClass(c, DomainPart) || InClass(c, TldPart) || c == '@'
  }

  // -------------------------------------------------------------------- email

  /**
   * `[A-Z|a-z]{2,}\b` starting at `t0`, the run of top-level-domain characters
   * ending at `e`: the greedy quantifier tries the longest end first.
   */
  function TldEnd(s: string, t0: nat, e: nat): (r: Option<nat>)
    requires t0 <= e <= |s|
    ensures r.Some? ==> t0 + 2 <= r.value <= e && Boundary(s, r.value)
    ensures r.Some? ==> forall x :: r.value < x <= e ==> !Boundary(s, x)
    ensures r.None? ==> forall x :: t0 + 2 <= x <= e ==> !Boundary(s, x)
    decreases e
  {
    if e < t0 + 2 then None
    else if Boundary(s, e) then Some(e)
    else TldEnd(s, t0, e - 1)
  }

  /**
   * `[A-Za-z0-9.-]+\.[A-Z|a-z]{2,}\b` from `d0`: the domain run shrinks from
   * the right until a dot at `q` is followed by an acceptable top-level domain.
   */
  function DotFrom(s: string, d0: nat, q: int): (r: Option<nat>)
    requires d0 <= |s| && q < |s|
    requires forall j :: d0 <= j <= q ==> InClass(s[j], DomainPart)
    ensures r.Some? ==> d0 + 4 <= r.value <= |s|
    ensures r.Some? ==> forall j :: d0 <= j < r.value ==> EmailChar(s[j])
    decreases q
  {
    if q <= d0 then None
    else if s[q] == '.' then
      match TldEnd(s, q + 1, RunEnd(s, q + 1, TldPart))
      case Some(e) => Some(e)
      case None => DotFrom(s, d0, q - 1)
    else DotFrom(s, d0, q - 1)
  }

  /** The end of the email match that starts at `i`, if there is one. */
  function EmailAt(s: string, i: nat): (r: Option<nat>)
    requires i <= |s|
    ensures r.Some? ==> i < r.value <= |s|
    ensures r.Some? ==> '@' in s[i..r.value]
    ensures r.Some? ==> forall j :: i <= j < r.value ==> EmailChar(s[j])
  {
    if !Boundary(s, i) then None
    else
      var le := RunEnd(s, i, LocalPart);
      if le == i || le == |s| || s[le] != '@' then None
      else
        var de := RunEnd(s, le + 1, DomainPart);
        var r := DotFrom(s, le + 1, de - 1);
        if r.Some? then
          assert s[i..r.value][le - i] == '@';
          r
        else None
  }

  // ------------------------------------------------------ key/value patterns

  /** `w` (a literal word) or `a[_-]?b`. */
  datatype Pattern = Word(w: string) | Joined(a: string, b: string)

  /** The regular expression's source text, as the source records it. */
  function PatternText(p: Pattern): string
  {
    match p
    case Word(w) => w
    case Joined(a, b) => a + "[_-]?" + b
  }

  /** The literal `w` at `i`, ASCII case-insensitively. */
  predicate LitCIAt(s: string, w: string, i: nat)
  {
    i + |w| <= |s| && Lower(s[i..i + |w|]) == Lower(w)
  }

  /** The ends at which pattern `p` matches from `i`, in the order the engine tries them. */
  function PatternEnds(p: Pattern, s: string, i: nat): (r: seq<nat>)
    ensures forall k :: 0 <= k < |r| ==> i <= r[k] <= |s|
  {
    match p
    case Word(w) => if LitCIAt(s, w, i) then [i + |w|] else []
    case Joined(a, b) =>
      if !LitCIAt(s, a, i) then []
      else
        var j := i + |a|;
        (if j < |s| && (s[j] == '_' || s[j] == '-') && LitCIAt(s, b, j + 1) then [j + 1 + |b|] else [])
        + (if LitCIAt(s, b, j) then [j + |b|] else [])
  }

  /** The literal a pattern ends with: `w`, or `b` of `a[_-]?b`. */
  function LastWord(p: Pattern): string
  {
    match p
    case Word(w) => w
    case Joined(_, b) => b
  }

  /** Where a match from `i` has its last word. */
  lemma LastWordAt(p: Pattern, s: string, i: nat) returns (x: nat)
    requires PatternEnds(p, s, i) != []
    ensures i <= x && LitCIAt(s, LastWord(p), x)
  {
    match p {
      case Word(w) =>
        x := i;
      case Joined(a, b) =>
        var j := i + |a|;
        var joined := if j < |s| && (s[j] == '_' || s[j] == '-') && LitCIAt(s, b, j + 1) then [j + 1 + |b|] else [];
        var plain := if LitCIAt(s, b, j) then [j + |b|] else [];
        assert PatternEnds(p, s, i) == joined + plain;
        if joined != [] {
          x := j + 1;
        } else {
          x := j;
        }
    }
  }

  /** A match: the whole span, the first group `[start, keyEnd)` and the value group. */
  datatype Match = Match(start: nat, keyEnd: nat, valueStart: nat, valueEnd: nat, end: nat)

  predicate WellFormed(m: Match, s: string)
  {
    m.start <= m.keyEnd <= m.valueStart <= m.valueEnd <= m.end <= |s| && m.start < m.end
  }

  function Key(s: string, m: Match): string
    requires WellFormed(m, s)
  {
    s[m.start..m.keyEnd]
  }

  function Value(s: string, m: Match): string
    requires WellFormed(m, s)
  {
    s[m.valueStart..m.valueEnd]
  }

  /** `\s*[=:]\s*([^\s\n]+)` from `j`: the value span, if the rest matches. */
  function AssignFrom(s: string, j: nat): (r: Option<(nat, nat)>)
    requires j <= |s|
    ensures r.Some? ==> j < r.value.0 < r.value.1 <= |s|
    ensures r.Some? ==> forall x :: r.value.0 <= x < r.value.1 ==> !IsSpace(s[x])
    ensures r.Some? ==> r.value.1 == |s| || IsSpace(s[r.value.1])
  {
    var j1 := RunEnd(s, j, Space);
    if j1 == |s| || (s[j1] != '=' && s[j1] != ':') then None
    else
      var j2 := RunEnd(s, j1 + 1, Space);
      var j3 := RunEnd(s, j2, NonSpace);
      if j3 == j2 then None else Some((j2, j3))
  }

  /** Tries the pattern ends in order; the first one the rest accepts wins. */
  function FirstAssign(s: string, i: nat, ends: seq<nat>): (r: Option<Match>)
    requires forall k :: 0 <= k < |ends| ==> i <= ends[k] <= |s|
    ensures r.Some? ==> WellFormed(r.value, s) && r.value.start == i
    ensures r.Some? ==> r.value.keyEnd in ends
  {
    if ends == [] then None
    else match AssignFrom(s, ends[0])
      case Some(v) => Some(Match(i, ends[0], v.0, v.1, v.1))
      case None => FirstAssign(s, i, ends[1..])
  }

  /** `"key":\s*"([^"]+)"` at `i`, case-insensitively. */
  function QuotedAt(key: string, s: string, i: nat): (r: Option<Match>)
    ensures r.Some? ==> WellFormed(r.value, s) && r.value.start == i
    ensures r.Some? ==> r.value.end == r.value.valueEnd + 1 && s[r.value.valueEnd] == '"'
    ensures r.Some? ==> '"' !in Value(s, r.value)
  {
    var lit := "\"" + key + "\":";
    if !LitCIAt(s, lit, i) then None
    else
      var j := RunEnd(s, i + |lit|, Space);
      if j == |s| || s[j] != '"' then None
      else
        var v := RunEnd(s, j + 1, NonQuote);
        if v == j + 1 || v == |s| then None
        else Some(Match(i, i + |lit|, j + 1, v, v + 1))
  }

  // ------------------------------------------------------------------ matchers

  datatype Matcher = Email | Assign(p: Pattern) | Quoted(key: string)

  /** The match of `m` that starts exactly at `i`. */
  function MatchAt(m: Matcher, s: string, i: nat): (r: Option<Match>)
    requires i <= |s|
    ensures r.Some? ==> WellFormed(r.value, s) && r.value.start == i
  {
    match m
    case Email =>
      (match EmailAt(s, i)
       case Some(e) => Some(Match(i, i, i, e, e))
       case None => None)
    case Assign(p) => FirstAssign(s, i, PatternEnds(p, s, i))
    case Quoted(key) => QuotedAt(key, s, i)
  }

  /** No match of `m` starts in `[lo, hi)`. */
  predicate NoMatchIn(m: Matcher, s: string, lo: nat, hi: nat)
    requires hi <= |s| + 1
  {
    forall j :: lo <= j < hi ==> MatchAt(m, s, j).None?
  }

  /** `re.search`: the leftmost match at or after `i`. */
  function SearchFrom(m: Matcher, s: string, i: nat): (r: Option<Match>)
    requires i <= |s|
    ensures r.Some? ==> i <= r.value.start <= |s| && MatchAt(m, s, r.value.start) == r
                        && NoMatchIn(m, s, i, r.value.start)
    ensures r.None? ==> NoMatchIn(m, s, i, |s| + 1)
    decreases |s| - i
  {
    var x := MatchAt(m, s, i);
    if x.Some? then x
    else if i == |s| then None
    else SearchFrom(m, s, i + 1)
  }

  /** `re.finditer` / `re.findall`: successive leftmost, non-overlapping matches. */
  function FindAllFrom(m: Matcher, s: string, i: nat): (r: seq<Match>)
    requires i <= |s|
    ensures forall k :: 0 <= k < |r| ==>
      WellFormed(r[k], s) && i <= r[k].start && MatchAt(m, s, r[k].start) == Some(r[k])
    ensures forall k :: 0 <= k < |r| - 1 ==> r[k].end <= r[k + 1].start
    decreases |s| - i
  {
    match SearchFrom(m, s, i)
    case None => []
    case Some(x) =>
      var rest := FindAllFrom(m, s, x.end);
      MatchesCons(m, s, i, x, rest, [x] + rest);
      [x] + rest
  }

  /** A match followed by matches that start after it are matches in order. */
  lemma MatchesCons(m: Matcher, s: string, i: nat, x: Match, rest: seq<Match>, r: seq<Match>)
    requires WellFormed(x, s) && i <= x.start && MatchAt(m, s, x.start) == Some(x)
    requires forall k :: 0 <= k < |rest| ==>
      WellFormed(rest[k], s) && x.end <= rest[k].start && MatchAt(m, s, rest[k].start) == Some(rest[k])
    requires forall k :: 0 <= k < |rest| - 1 ==> rest[k].end <= rest[k + 1].start
    requires r == [x] + rest
    ensures forall k :: 0 <= k < |r| ==>
      WellFormed(r[k], s) && i <= r[k].start && MatchAt(m, s, r[k].start) == Some(r[k])
    ensures forall k :: 0 <= k < |r| - 1 ==> r[k].end <= r[k + 1].start
  {
    assert r[0] == x;
    assert forall k :: 0 <= k < |rest| ==> r[k + 1] == rest[k];
  }


  function FindAll(m: Matcher, s: string): seq<Match>
  {
    FindAllFrom(m, s, 0)
  }

  function Search(m: Matcher, s: string): Option<Match>
  {
    SearchFrom(m, s, 0)
  }

  /** What `findall` returns for a pattern with at most one group: the value text. */
  function Values(s: string, ms: seq<Match>): (r: seq<string>)
    requires forall k :: 0 <= k < |ms| ==> WellFormed(ms[k], s)
    ensures |r| == |ms|
    ensures forall k :: 0 <= k < |r| ==> r[k] == Value(s, ms[k])
  {
    if ms == [] then [] else [Value(s, ms[0])] + Values(s, ms[1..])
  }

  function FindAllValues(m: Matcher, s: string): seq<string>
  {
    Values(s, FindAll(m, s))
  }

  /** `re.match(email, v)`: an email match anchored at the start of `v`. */
  predicate StartsWithEmail(v: string)
  {
    EmailAt(v, 0).Some?
  }

  /** The value of an email match is the matched text itself: it has an `@` and only email characters. */
  lemma EmailMatchShape(s: string, x: Match)
    requires x.start <= |s| && MatchAt(Email, s, x.start) == Some(x)
    ensures WellFormed(x, s) && Contains(s, Value(s, x)) && '@' in Value(s, x)
    ensures forall j :: 0 <= j < |Value(s, x)| ==> EmailChar(Value(s, x)[j])
  {
    var e := EmailAt(s, x.start);
    assert e.Some? && x.valueStart == x.start && x.valueEnd == e.value;
    OccursAtContains(s, Value(s, x), x.valueStart);
  }

  /** Every value `findall` returns is the value group of a match found in the text. */
  lemma FoundValueMatched(m: Matcher, s: string, v: string) returns (x: Match)
    requires v in FindAllValues(m, s)
    ensures x.start <= |s| && MatchAt(m, s, x.start) == Some(x)
    ensures WellFormed(x, s) && v == Value(s, x)
  {
    var ms := FindAllFrom(m, s, 0);
    var vs := Values(s, ms);
    var k :| 0 <= k < |vs| && vs[k] == v;
    x := ms[k];
  }

  /** Every email that `findall` returns occurs in the text, has an `@` and only email characters. */
  lemma FoundEmailsOccur(s: string, v: string)
    requires v in FindAllValues(Email, s)
    ensures Contains(s, v) && '@' in v
    ensures forall j :: 0 <= j < |v| ==> EmailChar(v[j])
  {
    var x := FoundValueMatched(Email, s, v);
    EmailMatchShape(s, x);
  }

  /**
   * `findall` is repeated `search`: its first match is the leftmost one, and
   * the rest are found from the end of that match.
   */
  lemma {:induction false} FindAllIsRepeatedSearch(m: Matcher, s: string, i: nat)
    requires i <= |s|
    ensures FindAllFrom(m, s, i) == [] <==> NoMatchIn(m, s, i, |s| + 1)
    ensures FindAllFrom(m, s, i) != [] ==>
      FindAllFrom(m, s, i)[0] == SearchFrom(m, s, i).value
      && FindAllFrom(m, s, i)[1..] == FindAllFrom(m, s, SearchFrom(m, s, i).value.end)
  {
    match SearchFrom(m, s, i)
    case None =>
    case Some(x) =>
      assert MatchAt(m, s, x.start).Some?;
  }

  // ------------------------------------------------------- whole-word replace

  predicate WholeWordAt(s: string, u: string, i: int)
  {
    OccursAt(s, u, i) && Boundary(s, i) && Boundary(s, i + |u|)
  }

  /** `re.sub(r'\b' + re.escape(u) + r'\b', rep, s)`, scanning from `i`. */
  function ReplaceWordFrom(s: string, u: string, rep: string, i: nat): string
    requires |u| > 0 && i <= |s|
    decreases |s| - i
  {
    if i == |s| then []
    else if WholeWordAt(s, u, i) then rep + ReplaceWordFrom(s, u, rep, i + |u|)
    else [s[i]] + ReplaceWordFrom(s, u, rep, i + 1)
  }

  function ReplaceWord(s: string, u: string, rep: string): string
    requires |u| > 0
  {
    ReplaceWordFrom(s, u, rep, 0)
  }

  /** Where `u` never stands as a whole word, the substitution changes nothing. */
  lemma {:induction false} ReplaceWordNoMatch(s: string, u: string, rep: string, i: nat)
    requires |u| > 0 && i <= |s|
    requires forall j :: i <= j < |s| ==> !WholeWordAt(s, u, j)
    ensures ReplaceWordFrom(s, u, rep, i) == s[i..]
    decreases |s| - i
  {
    if i < |s| {
      ReplaceWordNoMatch(s, u, rep, i + 1);
      assert s[i..] == [s[i]] + s[i + 1..];
    }
  }

  /** A word embedded in a longer word (`eve` in `steven`) is left alone. */
  lemma EmbeddedWordKept()
    ensures ReplaceWord("steven", "eve", "[REMOVED]") == "steven"
  {
    var s := "steven";
    assert !Boundary(s, 2);
    forall j | 0 <= j < |s| ensures !WholeWordAt(s, "eve", j) {
    }
    ReplaceWordNoMatch(s, "eve", "[REMOVED]", 0);
  }

  /** A standalone word is replaced. */
  lemma StandaloneWordReplaced()
    ensures ReplaceWord("eve x", "eve", "[REMOVED]") == "[REMOVED] x"
  {
    var s := "eve x";
    assert WholeWordAt(s, "eve", 0);
    assert !WholeWordAt(s, "eve", 3) && !WholeWordAt(s, "eve", 4);
    assert ReplaceWordFrom(s, "eve", "[REMOVED]", 3) == " x" by {
      assert ReplaceWordFrom(s, "eve", "[REMOVED]", 4) == "x";
    }
  }

  /** Where `u` stands as a whole word at `i`, the output continues with `rep`. */
  lemma ReplaceWordHead(s: string, u: string, rep: string, i: nat)
    ensures |u| > 0 && |rep| > 0 && i < |s| && WholeWordAt(s, u, i) ==>
      ReplaceWordFrom(s, u, rep, i)[0] == rep[0]
  {
  }

  /** The first `n` characters of `t` exist and none of them is `c`. */
  predicate LacksBefore(t: string, n: nat, c: char)
  {
    n <= |t| && forall j :: 0 <= j < n ==> t[j] != c
  }

  /** The characters kept before the first substitution are the input's own. */
  lemma {:induction false} ReplaceWordKeptPrefix(s: string, u: string, rep: string, i: nat, n: nat)
    requires |u| > 0 && |rep| > 0 && i <= |s|
    ensures LacksBefore(ReplaceWordFrom(s, u, rep, i), n, rep[0]) ==>
            i + n <= |s| && ReplaceWordFrom(s, u, rep, i)[..n] == s[i..i + n]
    decreases |s| - i
  {
    if n > 0 && i < |s| {
      if WholeWordAt(s, u, i) {
        ReplaceWordHead(s, u, rep, i);
      } else {
        var big := ReplaceWordFrom(s, u, rep, i);
        var r := ReplaceWordFrom(s, u, rep, i + 1);
        assert big == [s[i]] + r;
        forall j | 0 <= j < n - 1 && j < |r| ensures r[j] == big[j + 1] {
        }
        ReplaceWordKeptPrefix(s, u, rep, i + 1, n - 1);
        if n - 1 <= |r| {
          assert big[..n] == [s[i]] + r[..n - 1];
        }
        if i + n <= |s| {
          assert s[i..i + n] == [s[i]] + s[i + 1..i + n];
        }
      }
    }
  }

  /** `t` ends `r`. */
  predicate SuffixOf(t: string, r: string)
  {
    |t| <= |r| && r[|r| - |t|..] == t
  }

  /** A text that ends `r` also ends anything put in front of `r`. */
  lemma SuffixOfPrepend(t: string, x: string, r: string)
    requires SuffixOf(t, r)
    ensures SuffixOf(t, x + r)
  {
    assert (x + r)[|x + r| - |t|..] == r[|r| - |t|..];
  }

  /** The substitution cannot run across a character `u` lacks: scanning from `i` it reaches `n` and goes on from there. */
  lemma {:induction false} WordScanReaches(s: string, u: string, rep: string, i: nat, n: nat)
    requires |u| > 0 && i <= n < |s| && s[n] !in u
    ensures SuffixOf(ReplaceWordFrom(s, u, rep, n), ReplaceWordFrom(s, u, rep, i))
    decreases n - i
  {
    var t := ReplaceWordFrom(s, u, rep, n);
    if i == n {
      assert t[|t| - |t|..] == t;
    } else if WholeWordAt(s, u, i) {
      OccursCovers(s, u, i, n);
      WordScanReaches(s, u, rep, i + |u|, n);
      SuffixOfPrepend(t, rep, ReplaceWordFrom(s, u, rep, i + |u|));
    } else {
      WordScanReaches(s, u, rep, i + 1, n);
      SuffixOfPrepend(t, [s[i]], ReplaceWordFrom(s, u, rep, i + 1));
    }
  }

  /** Where no whole word starts, the scan from `n` copies the next `m` characters of the input. */
  lemma {:induction false} WordScanCopies(s: string, u: string, rep: string, n: nat, m: nat)
    requires |u| > 0 && n + m <= |s|
    requires forall j :: n <= j < n + m ==> !WholeWordAt(s, u, j)
    ensures m <= |ReplaceWordFrom(s, u, rep, n)| && ReplaceWordFrom(s, u, rep, n)[..m] == s[n..n + m]
    decreases m
  {
    if m > 0 {
      WordScanCopies(s, u, rep, n + 1, m - 1);
      var r := ReplaceWordFrom(s, u, rep, n + 1);
      assert ReplaceWordFrom(s, u, rep, n) == [s[n]] + r;
      assert ([s[n]] + r)[..m] == [s[n]] + r[..m - 1];
      assert s[n..n + m] == [s[n]] + s[n + 1..n + m];
    }
  }

  /** Inside `a + [q] + e + [q] + b`, an occurrence of `u` that starts at or after the first `q` and lacks `q` lies within `e`. */
  lemma DelimitedNoWord(a: string, e: string, b: string, q: char, u: string, j: int)
    requires |u| > 0 && q !in u && !Contains(e, u) && |a| <= j <= |a| + |e|
    ensures !OccursAt(a + [q] + e + [q] + b, u, j)
  {
    var s := a + [q] + e + [q] + b;
    var n := |a|;
    OccursCovers(s, u, j, n);
    OccursCovers(s, u, j, n + 1 + |e|);
    assert s[n] == q && s[n + 1 + |e|] == q;
    if n < j && j + |u| <= n + 1 + |e| {
      var k := j - n - 1;
      assert OccursAt(s, u, j) ==> OccursAt(e, u, k) by {
        if OccursAt(s, u, j) {
          assert e[k..k + |u|] == s[j..j + |u|];
        }
      }
      OccursAtContains(e, u, k);
    }
  }

  /**
   * Text set off on both sides by a character the word lacks, and not
   * containing the word, comes through the whole-word substitution intact.
   */
  lemma WordKeepsDelimited(a: string, e: string, b: string, q: char, u: string, rep: string)
    requires |u| > 0 && q !in u && !Contains(e, u)
    ensures Contains(ReplaceWord(a + [q] + e + [q] + b, u, rep), e)
  {
    var s := a + [q] + e + [q] + b;
    var n := |a|;
    var m := |e| + 1;
    assert s[n] == q;
    WordScanReaches(s, u, rep, 0, n);
    forall j | n <= j < n + m ensures !WholeWordAt(s, u, j) {
      DelimitedNoWord(a, e, b, q, u, j);
    }
    WordScanCopies(s, u, rep, n, m);
    var t := ReplaceWordFrom(s, u, rep, n);
    var r := ReplaceWord(s, u, rep);
    assert s[n..n + m] == [q] + e;
    assert t[1..1 + |e|] == t[..m][1..] == e;
    assert OccursAt(t, e, 1);
    OccursAtContains(t, e, 1);
    assert r[|r| - |t|..] == t;
    ContainsOfSuffix(r, |r| - |t|, e);
  }

  /** An occurrence of `pat` at the start of `[c] + t` puts the rest of `pat` at the start of `t`. */
  lemma StartMatchTail(t: string, c: char, pat: string, rep0: char)
    requires |pat| > 0 && rep0 !in pat
    ensures OccursAt([c] + t, pat, 0) ==>
      |pat| - 1 <= |t| && forall j :: 0 <= j < |pat| - 1 ==> t[j] != rep0
  {
    var r := [c] + t;
    if OccursAt(r, pat, 0) {
      forall j | 0 <= j < |pat| - 1 ensures t[j] != rep0 {
        assert t[j] == r[j + 1] == r[..|pat|][j + 1];
      }
    }
  }

  /** A kept character followed by a kept stretch of `s` matches where `s` itself matches. */
  lemma ConsPrefixStart(s: string, i: nat, t: string, pat: string)
    requires |pat| > 0 && i < |s|
    ensures var m := |pat| - 1;
      (m <= |t| && i + 1 + m <= |s| && t[..m] == s[i + 1..i + 1 + m] && OccursAt([s[i]] + t, pat, 0))
      ==> OccursAt(s[i..], pat, 0)
  {
    var m := |pat| - 1;
    if m <= |t| && i + 1 + m <= |s| && t[..m] == s[i + 1..i + 1 + m] && OccursAt([s[i]] + t, pat, 0) {
      assert ([s[i]] + t)[..|pat|] == [s[i]] + t[..m];
      assert s[i..][..|pat|] == [s[i]] + s[i + 1..i + 1 + m];
    }
  }

  /** Keeping a character that does not start `pat` cannot make `pat` start there. */
  lemma WordMissNotAtStart(s: string, u: string, rep: string, pat: string, i: nat)
    requires |u| > 0 && |rep| > 0 && |pat| > 0 && i < |s| && rep[0] !in pat
    requires !OccursAt(s[i..], pat, 0)
    ensures !OccursAt([s[i]] + ReplaceWordFrom(s, u, rep, i + 1), pat, 0)
  {
    var t := ReplaceWordFrom(s, u, rep, i + 1);
    var k := i + 1;
    var n := |pat| - 1;
    ReplaceWordKeptPrefix(s, u, rep, k, n);
    ConsMissNotAtStart(s, i, k, t, pat, n, rep[0]);
  }



  /**
   * `[s[i]] + t` does not start with `pat` when `s[i..]` does not and `t`
   * repeats `s` after `i` up to the first `rep0`, a character `pat` lacks.
   */
  lemma ConsMissNotAtStart(s: string, i: nat, k: nat, t: string, pat: string, n: nat, rep0: char)
    requires |pat| > 0 && i < |s| && rep0 !in pat && !OccursAt(s[i..], pat, 0)
    requires k == i + 1 && n == |pat| - 1
    requires LacksBefore(t, n, rep0) ==> k + n <= |s| && t[..n] == s[k..k + n]
    ensures !OccursAt([s[i]] + t, pat, 0)
  {
    if LacksBefore(t, |pat| - 1, rep0) {
      ConsPrefixStart(s, i, t, pat);
    } else {
      StartMatchTail(t, s[i], pat, rep0);
    }
  }

  /**
   * Whole-word substitution cannot create an occurrence of `pat` that the
   * input lacked, under the same conditions on `rep` as for `str.replace`.
   */
  lemma {:induction false} ReplaceWordKeepsAbsent(s: string, u: string, rep: string, pat: string, i: nat)
    requires |u| > 0 && |rep| > 0 && |pat| > 0 && i <= |s|
    requires rep[0] !in pat && rep[|rep| - 1] !in pat && !Contains(rep, pat)
    requires !Contains(s[i..], pat)
    ensures !Contains(ReplaceWordFrom(s, u, rep, i), pat)
    decreases |s| - i
  {
    var r := ReplaceWordFrom(s, u, rep, i);
    if i < |s| {
      if WholeWordAt(s, u, i) {
        assert s[i + |u|..] == s[i..][|u|..];
        ContainsOfSuffix(s[i..], |u|, pat);
        var t := ReplaceWordFrom(s, u, rep, i + |u|);
        ReplaceWordKeepsAbsent(s, u, rep, pat, i + |u|);
        assert r == rep + t;
        forall k | 0 <= k <= |r| - |pat| ensures !OccursAt(r, pat, k) {
          if k >= |rep| {
            assert r[|rep|..] == t;
            OccursInSuffix(r, |rep|, pat, k);
          } else if k + |pat| <= |rep| {
            assert r[..|rep|] == rep;
            OccursInPrefix(r, |rep|, pat, k);
          }
        }
      } else {
        assert s[i + 1..] == s[i..][1..];
        ContainsOfSuffix(s[i..], 1, pat);
        var t := ReplaceWordFrom(s, u, rep, i + 1);
        ReplaceWordKeepsAbsent(s, u, rep, pat, i + 1);
        assert r == [s[i]] + t;
        forall k | 0 <= k <= |r| - |pat| ensures !OccursAt(r, pat, k) {
          if k >= 1 {
            assert r[1..] == t;
            OccursInSuffix(r, 1, pat, k);
          } else {
            assert !OccursAt(s[i..], pat, 0);
            WordMissNotAtStart(s, u, rep, pat, i);
          }
        }
      }
    }
  }
}
