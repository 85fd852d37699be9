// Shared vocabulary of the cleaner model: optional values, ASCII character
// classes, the string operations the Python code leans on (`in`, `lower()`,
// `startswith`, `endswith`, `replace`, `split`, `join`, `str(int)`), and sums.
module Common {

  datatype Option<T> = None | Some(value: T)

  /** The outcome of an operation that raises on some inputs. */
  datatype Result<T> = Ok(value: T) | Err(error: string)

  /** A file-system path as its components (`Path('a') / 'b'` is `["a", "b"]`). */
  type Path = seq<string>

  /** `path.name`: the last component, or empty for the empty path. */
  function PathName(p: Path): string
  {
    if p == [] then "" else p[|p| - 1]
  }

  /** `path.parent`. */
  function Parent(p: Path): Path
  {
    if p == [] then [] else p[..|p| - 1]
  }

  /** `p` is `base` or lies below it. */
  predicate AtOrBelow(p: Path, base: Path)
  {
    |base| <= |p| && p[..|base|] == base
  }

  // ---------------------------------------------------------------- characters

  predicate IsUpperAscii(c: char) { 'A' <= c <= 'Z' }
  predicate IsLowerAscii(c: char) { 'a' <= c <= 'z' }
  predicate IsLetter(c: char) { IsUpperAscii(c) || IsLowerAscii(c) }
  predicate IsDigit(c: char) { '0' <= c <= '9' }
  predicate IsAlnum(c: char) { IsLetter(c) || IsDigit(c) }

  /** A regular-expression word character (`\w`), ASCII part. */
  predicate IsWordChar(c: char) { IsAlnum(c) || c == '_' }

  /** Python's `str.isspace()` / the regex class `\s` on `str` patterns. */
  predicate IsSpace(c: char)
  {
    ('\t' <= c <= '\r') || ('\U{001C}' <= c <= ' ') || c == '\U{0085}' || c == '\U{00A0}'
    || c == '\U{1680}' || ('\U{2000}' <= c <= '\U{200A}') || c == '\U{2028}' || c == '\U{2029}'
    || c == '\U{202F}' || c == '\U{205F}' || c == '\U{3000}'
  }

  function LowerChar(c: char): char
  {
    if IsUpperAscii(c) then (c as int + 32) as char else c
  }

  function UpperChar(c: char): char
  {
    if IsLowerAscii(c) then (c as int - 32) as char else c
  }

  /** `s.lower()` restricted to ASCII case mapping. */
  function Lower(s: string): string
  {
    seq(|s|, i requires 0 <= i < |s| => LowerChar(s[i]))
  }

  /** `s.upper()` restricted to ASCII case mapping. */
  function Upper(s: string): string
  {
    seq(|s|, i requires 0 <= i < |s| => UpperChar(s[i]))
  }

  /** `s.isdigit()` (ASCII digits; the empty string is not a digit string). */
  predicate AllDigits(s: string)
  {
    |s| > 0 && forall i :: 0 <= i < |s| ==> IsDigit(s[i])
  }

  // ------------------------------------------------------------ substrings

  predicate OccursAt(s: string, p: string, i: int)
  {
    0 <= i && i + |p| <= |s| && s[i..i + |p|] == p
  }

  /** Python's `p in s`. */
  predicate Contains(s: string, p: string)
  {
    exists i :: 0 <= i <= |s| - |p| && OccursAt(s, p, i)
  }

  /** `p.lower() in s.lower()`. */
  predicate ContainsCI(s: string, p: string)
  {
    Contains(Lower(s), Lower(p))
  }

  /** `any(p in s for p in ps)`. */
  predicate ContainsAny(s: string, ps: seq<string>)
  {
    exists k :: 0 <= k < |ps| && Contains(s, ps[k])
  }

  predicate StartsWith(s: string, p: string) { p <= s }

  predicate EndsWith(s: string, p: string)
  {
    |p| <= |s| && s[|s| - |p|..] == p
  }

  lemma OccursAtContains(s: string, p: string, i: int)
    ensures OccursAt(s, p, i) ==> Contains(s, p)
  {
  }

  /** A string that contains `p` also contains every substring of `p`. */
  lemma {:induction false} ContainsTrans(s: string, p: string, q: string)
    requires Contains(s, p) && Contains(p, q)
    ensures Contains(s, q)
  {
    var i :| 0 <= i <= |s| - |p| && OccursAt(s, p, i);
    var j :| 0 <= j <= |p| - |q| && OccursAt(p, q, j);
    forall k | 0 <= k < |q| ensures s[i + j + k] == q[k] {
      assert s[i..i + |p|][j + k] == p[j + k];
    }
    assert s[i + j..i + j + |q|] == q;
    assert OccursAt(s, q, i + j);
  }

  /** An occurrence past offset `off` is an occurrence in the suffix from `off`. */
  lemma OccursInSuffix(r: string, off: int, pat: string, k: int)
    requires 0 <= off <= k
    ensures OccursAt(r, pat, k) ==> OccursAt(r[off..], pat, k - off)
  {
    if OccursAt(r, pat, k) {
      assert r[off..][k - off..k - off + |pat|] == r[k..k + |pat|];
    }
  }

  /** A string contains whatever one of its suffixes contains. */
  lemma ContainsOfSuffix(s: string, off: int, pat: string)
    requires 0 <= off <= |s|
    ensures Contains(s[off..], pat) ==> Contains(s, pat)
  {
    if Contains(s[off..], pat) {
      var k :| 0 <= k <= |s[off..]| - |pat| && OccursAt(s[off..], pat, k);
      assert s[off..][k..k + |pat|] == s[off + k..off + k + |pat|];
      assert OccursAt(s, pat, off + k);
    }
  }

  /** An occurrence that ends inside a prefix is an occurrence in that prefix. */
  lemma OccursInPrefix(r: string, n: int, pat: string, k: int)
    requires 0 <= n <= |r| && k + |pat| <= n
    ensures OccursAt(r, pat, k) ==> OccursAt(r[..n], pat, k)
  {
    if OccursAt(r, pat, k) {
      assert r[..n][k..k + |pat|] == r[k..k + |pat|];
    }
  }

  lemma LowerSlice(s: string, i: int, j: int)
    requires 0 <= i <= j <= |s|
    ensures Lower(s)[i..j] == Lower(s[i..j])
  {
  }

  lemma LowerConcat(a: string, b: string)
    ensures Lower(a + b) == Lower(a) + Lower(b)
  {
  }

  lemma LowerIdempotent(s: string)
    ensures Lower(Lower(s)) == Lower(s)
  {
  }

  /** Case-insensitive containment is transitive through a lowered middle string. */
  lemma ContainsCITrans(s: string, p: string, q: string)
    requires ContainsCI(s, p) && ContainsCI(p, q)
    ensures ContainsCI(s, q)
  {
    LowerIdempotent(p);
    ContainsTrans(Lower(s), Lower(p), Lower(q));
  }

  // -------------------------------------------------------------- replace

  /**
   * Python's `s.replace(pat, rep)`: left-to-right, non-overlapping; an empty
   * pattern inserts `rep` before every character and at the end.
   */
  function ReplaceAll(s: string, pat: string, rep: string): string
    decreases |s|
  {
    if |pat| == 0 then
      (if s == [] then rep else rep + [s[0]] + ReplaceAll(s[1..], pat, rep))
    else if |s| < |pat| then s
    else if s[..|pat|] == pat then rep + ReplaceAll(s[|pat|..], pat, rep)
    else [s[0]] + ReplaceAll(s[1..], pat, rep)
  }

  /** Replacing a pattern that does not occur leaves the string as it is. */
  lemma {:induction false} ReplaceAllAbsent(s: string, pat: string, rep: string)
    requires |pat| > 0 && !Contains(s, pat)
    ensures ReplaceAll(s, pat, rep) == s
    decreases |s|
  {
    if |s| >= |pat| {
      if s[..|pat|] == pat {
        OccursAtContains(s, pat, 0);
        assert false;
      } else {
        forall i | 0 <= i <= |s| - 1 - |pat| ensures !OccursAt(s[1..], pat, i) {
          assert s[1..][i..i + |pat|] == s[i + 1..i + 1 + |pat|];
          assert !OccursAt(s, pat, i + 1);
        }
        ReplaceAllAbsent(s[1..], pat, rep);
      }
    }
  }

  /** Where the input starts with the pattern, the result starts with `rep`. */
  lemma ReplaceAllHead(t: string, pat: string, rep: string)
    ensures |pat| > 0 && |rep| > 0 && |t| >= |pat| && t[..|pat|] == pat ==>
      ReplaceAll(t, pat, rep)[0] == rep[0]
  {
  }

  /**
   * The characters kept in front of the first replacement are the input's own:
   * a prefix of the result that contains no `rep[0]` is a prefix of the input.
   */
  lemma {:induction false} ReplaceAllKeptPrefix(t: string, pat: string, rep: string, n: nat)
    requires |pat| > 0 && |rep| > 0
    ensures (n <= |ReplaceAll(t, pat, rep)| &&
             forall j :: 0 <= j < n ==> ReplaceAll(t, pat, rep)[j] != rep[0]) ==>
            n <= |t| && ReplaceAll(t, pat, rep)[..n] == t[..n]
    decreases |t|
  {
    if n > 0 && |t| >= |pat| {
      if t[..|pat|] == pat {
        ReplaceAllHead(t, pat, rep);
      } else {
        var r := ReplaceAll(t[1..], pat, rep);
        assert ReplaceAll(t, pat, rep) == [t[0]] + r;
        forall j | 0 <= j < n - 1 && j < |r| ensures r[j] == ReplaceAll(t, pat, rep)[j + 1] {
        }
        ReplaceAllKeptPrefix(t[1..], pat, rep, n - 1);
      }
    }
  }

  /**
   * After `s.replace(pat, rep)` no occurrence of `pat` is left, provided the
   * replacement cannot recreate one: `rep` neither starts nor ends with a
   * character of `pat` and does not itself contain `pat`.
   */
  lemma {:induction false} ReplaceAllLeavesNone(s: string, pat: string, rep: string)
    requires |pat| > 0 && |rep| > 0
    requires rep[0] !in pat && rep[|rep| - 1] !in pat && !Contains(rep, pat)
    ensures !Contains(ReplaceAll(s, pat, rep), pat)
    decreases |s|
  {
    var r := ReplaceAll(s, pat, rep);
    if |s| >= |pat| {
      if s[..|pat|] == pat {
        var t := ReplaceAll(s[|pat|..], pat, rep);
        ReplaceAllLeavesNone(s[|pat|..], pat, rep);
        assert r == rep + t;
        forall k | 0 <= k <= |r| - |pat| ensures !OccursAt(r, pat, k) {
          if k >= |rep| {
            assert r[|rep|..] == t;
            OccursInSuffix(r, |rep|, pat, k);
          } else if k + |pat| <= |rep| {
            assert r[..|rep|] == rep;
            OccursInPrefix(r, |rep|, pat, k);
          }
        }
      } else {
        var t := ReplaceAll(s[1..], pat, rep);
        ReplaceAllLeavesNone(s[1..], pat, rep);
        assert r == [s[0]] + t;
        forall k | 0 <= k <= |r| - |pat| ensures !OccursAt(r, pat, k) {
          if k >= 1 {
            assert r[1..] == t;
            OccursInSuffix(r, 1, pat, k);
          } else {
            MissNotAtStart(s, pat, rep);
          }
        }
      }
    }
  }

  /** When `s` does not start with `pat`, neither does its replacement. */
  lemma MissNotAtStart(s: string, pat: string, rep: string)
    requires |pat| > 0 && |rep| > 0 && rep[0] !in pat
    requires |s| >= |pat| && s[..|pat|] != pat
    ensures !OccursAt([s[0]] + ReplaceAll(s[1..], pat, rep), pat, 0)
  {
    var t := ReplaceAll(s[1..], pat, rep);
    var r := [s[0]] + t;
    var m := |pat| - 1;
    if |r| >= |pat| {
      if forall j :: 0 <= j < m ==> t[j] != rep[0] {
        ReplaceAllKeptPrefix(s[1..], pat, rep, m);
        assert s[..|pat|] == [s[0]] + s[1..][..m];
        assert r[..|pat|] == [s[0]] + t[..m];
      } else {
        var j :| 0 <= j < m && t[j] == rep[0];
        assert r[j + 1] == rep[0] && r[..|pat|][j + 1] == r[j + 1];
      }
    }
  }

  /** A leading character that `pat` lacks is copied through `s.replace(pat, rep)`. */
  lemma ReplaceAllFreshHead(q: char, x: string, pat: string, rep: string)
    requires |pat| > 0 && q !in pat
    ensures ReplaceAll([q] + x, pat, rep) == [q] + ReplaceAll(x, pat, rep)
  {
    var s := [q] + x;
    assert s[1..] == x;
    if |s| >= |pat| {
      assert s[..|pat|][0] == q;
    }
  }

  /** An occurrence of `pat` covers only characters of `pat`. */
  lemma OccursCovers(s: string, pat: string, i: int, n: int)
    ensures OccursAt(s, pat, i) && i <= n < i + |pat| ==> s[n] in pat
  {
    if OccursAt(s, pat, i) && i <= n < i + |pat| {
      assert s[n] == s[i..i + |pat|][n - i];
    }
  }

  /**
   * No replaced occurrence can cover a character that `pat` lacks, so
   * `s.replace` treats the text before it and the text from it on apart.
   */
  lemma {:induction false} ReplaceAllSplit(s: string, n: nat, pat: string, rep: string)
    requires |pat| > 0 && n < |s| && s[n] !in pat
    ensures ReplaceAll(s, pat, rep) == ReplaceAll(s[..n], pat, rep) + ReplaceAll(s[n..], pat, rep)
    decreases n
  {
    if n == 0 {
      assert s[..0] == [] && s[0..] == s;
    } else if |s| < |pat| {
      assert s == s[..n] + s[n..];
    } else if s[..|pat|] == pat {
      OccursCovers(s, pat, 0, n);
      var t := s[|pat|..];
      var k := n - |pat|;
      assert t[k] == s[n];
      ReplaceAllSplit(t, k, pat, rep);
      ReplaceAllSplitMatch(s, n, pat, rep, t, k);
    } else {
      var t := s[1..];
      var k := n - 1;
      assert t[k] == s[n];
      ReplaceAllSplit(t, k, pat, rep);
      ReplaceAllSplitKeep(s, n, pat, rep, t, k);
    }
  }

  /** `s.replace` on a text that starts with `pat`: `rep`, then the rest replaced. */
  lemma ReplaceAllAtMatch(s: string, pat: string, rep: string)
    requires 0 < |pat| <= |s| && s[..|pat|] == pat
    ensures ReplaceAll(s, pat, rep) == rep + ReplaceAll(s[|pat|..], pat, rep)
  {
  }

  /** `s.replace` on a text that does not start with `pat`: its first character, then the rest replaced. */
  lemma ReplaceAllAtKeep(s: string, pat: string, rep: string)
    requires 0 < |pat| && s != [] && !(|pat| <= |s| && s[..|pat|] == pat)
    ensures ReplaceAll(s, pat, rep) == [s[0]] + ReplaceAll(s[1..], pat, rep)
  {
  }

  /** The step of `ReplaceAllSplit` where `s` starts with `pat`. */
  lemma ReplaceAllSplitMatch(s: string, n: nat, pat: string, rep: string, t: string, k: nat)
    requires |pat| > 0 && |pat| <= n < |s| && s[..|pat|] == pat
    requires t == s[|pat|..] && k == n - |pat|
    requires ReplaceAll(t, pat, rep) == ReplaceAll(t[..k], pat, rep) + ReplaceAll(t[k..], pat, rep)
    ensures ReplaceAll(s, pat, rep) == ReplaceAll(s[..n], pat, rep) + ReplaceAll(s[n..], pat, rep)
  {
    var head := s[..n];
    TakeTake(s, n, |pat|);
    assert head[|pat|..] == t[..k];
    assert t[k..] == s[n..];
    ReplaceAllAtMatch(head, pat, rep);
    ReplaceAllAtMatch(s, pat, rep);
    ConcatAssoc(rep, ReplaceAll(t[..k], pat, rep), ReplaceAll(t[k..], pat, rep));
  }

  /** The step of `ReplaceAllSplit` where `s` does not start with `pat`. */
  lemma ReplaceAllSplitKeep(s: string, n: nat, pat: string, rep: string, t: string, k: nat)
    requires |pat| > 0 && 0 < n < |s| && |pat| <= |s| && s[..|pat|] != pat
    requires t == s[1..] && k == n - 1
    requires ReplaceAll(t, pat, rep) == ReplaceAll(t[..k], pat, rep) + ReplaceAll(t[k..], pat, rep)
    ensures ReplaceAll(s, pat, rep) == ReplaceAll(s[..n], pat, rep) + ReplaceAll(s[n..], pat, rep)
  {
    var head := s[..n];
    assert head[1..] == t[..k] && head[0] == s[0];
    if n >= |pat| {
      TakeTake(s, n, |pat|);
    }
    ReplaceAllAtKeep(head, pat, rep);
    ReplaceAllAtKeep(s, pat, rep);
    assert t[k..] == s[n..];
    ConcatAssoc([s[0]], ReplaceAll(t[..k], pat, rep), ReplaceAll(t[k..], pat, rep));
  }

  /**
   * Text set off on both sides by a character `pat` lacks, and not
   * containing `pat`, comes through `s.replace(pat, rep)` intact, with the
   * text around it replaced on its own.
   */
  lemma ReplaceAllAround(a: string, e: string, b: string, q: char, pat: string, rep: string)
    requires |pat| > 0 && q !in pat && !Contains(e, pat)
    ensures ReplaceAll(a + [q] + e + [q] + b, pat, rep)
         == ReplaceAll(a, pat, rep) + [q] + e + [q] + ReplaceAll(b, pat, rep)
  {
    var s := a + [q] + e + [q] + b;
    var y := e + [q] + b;
    assert ReplaceAll(s, pat, rep) == ReplaceAll(a, pat, rep) + ([q] + ReplaceAll(y, pat, rep)) by {
      assert s[..|a|] == a && s[|a|..] == [q] + y && s[|a|] == q;
      ReplaceAllSplit(s, |a|, pat, rep);
      ReplaceAllFreshHead(q, y, pat, rep);
    }
    assert ReplaceAll(y, pat, rep) == e + ([q] + ReplaceAll(b, pat, rep)) by {
      assert y[..|e|] == e && y[|e|..] == [q] + b && y[|e|] == q;
      ReplaceAllSplit(y, |e|, pat, rep);
      ReplaceAllAbsent(e, pat, rep);
      ReplaceAllFreshHead(q, b, pat, rep);
    }
  }

  /** The first part of `s.split(sep)` is a prefix of `s`. */
  lemma {:induction false} SplitHeadPrefix(s: string, sep: char)
    ensures Split(s, sep)[0] <= s
  {
    if s != [] && s[0] != sep {
      SplitHeadPrefix(s[1..], sep);
      assert s == [s[0]] + s[1..];
    }
  }

  /** Under the conditions above, replacing twice is the same as replacing once. */
  lemma ReplaceAllIdempotent(s: string, pat: string, rep: string)
    requires |pat| > 0 && |rep| > 0
    requires rep[0] !in pat && rep[|rep| - 1] !in pat && !Contains(rep, pat)
    ensures ReplaceAll(ReplaceAll(s, pat, rep), pat, rep) == ReplaceAll(s, pat, rep)
  {
    ReplaceAllLeavesNone(s, pat, rep);
    ReplaceAllAbsent(ReplaceAll(s, pat, rep), pat, rep);
  }

  /**
   * `s.replace(pat, rep)` cannot create an occurrence of `other` that `s`
   * lacked, when `rep` neither starts nor ends with a character of `other`
   * and does not itself contain `other`.
   */
  lemma {:induction false} ReplaceAllKeepsAbsent(s: string, pat: string, rep: string, other: string)
    requires |pat| > 0 && |rep| > 0 && |other| > 0
    requires rep[0] !in other && rep[|rep| - 1] !in other && !Contains(rep, other)
    requires !Contains(s, other)
    ensures !Contains(ReplaceAll(s, pat, rep), other)
    decreases |s|
  {
    var r := ReplaceAll(s, pat, rep);
    if |s| >= |pat| {
      if s[..|pat|] == pat {
        var t := ReplaceAll(s[|pat|..], pat, rep);
        ContainsOfSuffix(s, |pat|, other);
        ReplaceAllKeepsAbsent(s[|pat|..], pat, rep, other);
        assert r == rep + t;
        forall k | 0 <= k <= |r| - |other| ensures !OccursAt(r, other, k) {
          if k >= |rep| {
            assert r[|rep|..] == t;
            OccursInSuffix(r, |rep|, other, k);
          } else if k + |other| <= |rep| {
            assert r[..|rep|] == rep;
            OccursInPrefix(r, |rep|, other, k);
          }
        }
      } else {
        var t := ReplaceAll(s[1..], pat, rep);
        ContainsOfSuffix(s, 1, other);
        ReplaceAllKeepsAbsent(s[1..], pat, rep, other);
        assert r == [s[0]] + t;
        forall k | 0 <= k <= |r| - |other| ensures !OccursAt(r, other, k) {
          if k >= 1 {
            assert r[1..] == t;
            OccursInSuffix(r, 1, other, k);
          } else {
            forall j | 0 <= j < |other| - 1 ensures OccursAt(r, other, 0) ==> t[j] != rep[0] {
              assert OccursAt(r, other, 0) ==> t[j] == other[j + 1];
            }
            ReplaceAllKeptPrefix(s[1..], pat, rep, |other| - 1);
            assert OccursAt(r, other, 0) ==> s[..|other|] == [s[0]] + s[1..][..|other| - 1];
            assert !OccursAt(s, other, 0);
          }
        }
      }
    }
  }

  /** Every `c` replaced by `r`, every other character kept. */
  function MapChar(s: string, c: char, r: char): (t: string)
    ensures |t| == |s|
    ensures forall i :: 0 <= i < |s| ==> t[i] == if s[i] == c then r else s[i]
  {
    seq(|s|, i requires 0 <= i < |s| => if s[i] == c then r else s[i])
  }

  /** `s.replace(c, r)` for single characters maps every character on its own. */
  lemma {:induction false} ReplaceCharIsMap(s: string, c: char, r: char)
    ensures ReplaceAll(s, [c], [r]) == MapChar(s, c, r)
    decreases |s|
  {
    if s != [] {
      ReplaceCharIsMap(s[1..], c, r);
      assert MapChar(s, c, r) == [if s[0] == c then r else s[0]] + MapChar(s[1..], c, r);
      if s[..1] == [c] {
        assert s[1..] == s[|[c]|..];
      }
    }
  }

  /** A pattern holding a character that `rep` lacks cannot occur in `rep`. */
  lemma NotInsideFor(rep: string, pat: string, c: char)
    requires c in pat && c !in rep
    ensures !Contains(rep, pat)
  {
    if Contains(rep, pat) {
      assert false;
    }
  }

  /** Every character of `t` is whitespace. */
  predicate AllSpace(t: string)
  {
    forall k :: 0 <= k < |t| ==> IsSpace(t[k])
  }

  /** The first index at or after `i` that holds no whitespace, or `|s|`. */
  function SkipSpace(s: string, i: nat): (r: nat)
    requires i <= |s|
    ensures i <= r <= |s| && (r == |s| || !IsSpace(s[r]))
    ensures AllSpace(s[i..r])
    decreases |s| - i
  {
    if i < |s| && IsSpace(s[i]) then
      var r := SkipSpace(s, i + 1);
      assert s[i..r] == [s[i]] + s[i + 1..r];
      r
    else i
  }

  /** The end of `s[..j]` once its trailing whitespace down to `lo` is dropped. */
  function TrimEnd(s: string, lo: nat, j: nat): (r: nat)
    requires lo <= j <= |s|
    ensures lo <= r <= j && (r == lo || !IsSpace(s[r - 1]))
    ensures AllSpace(s[r..j])
    decreases j
  {
    if j > lo && IsSpace(s[j - 1]) then
      var r := TrimEnd(s, lo, j - 1);
      assert s[r..j] == s[r..j - 1] + [s[j - 1]];
      r
    else j
  }

  /** Python's `s.strip()`: the middle of `s` between leading and trailing whitespace. */
  function Strip(s: string): string
  {
    var i := SkipSpace(s, 0);
    s[i..TrimEnd(s, i, |s|)]
  }

  /** What `strip` leaves: no whitespace at either end, and only whitespace cut off. */
  lemma StripShape(s: string)
    ensures Strip(s) == [] || (!IsSpace(Strip(s)[0]) && !IsSpace(Strip(s)[|Strip(s)| - 1]))
    ensures exists i, j :: 0 <= i <= j <= |s| && Strip(s) == s[i..j] && AllSpace(s[..i]) && AllSpace(s[j..])
  {
    var i := SkipSpace(s, 0);
    var j := TrimEnd(s, i, |s|);
    assert s[..i] == s[0..i];
  }

  // ------------------------------------------------------------ split / join

  /** Python's `s.split(sep)` for a one-character separator. */
  function Split(s: string, sep: char): (r: seq<string>)
    ensures |r| >= 1
  {
    if s == [] then [[]]
    else if s[0] == sep then [[]] + Split(s[1..], sep)
    else
      var rest := Split(s[1..], sep);
      [[s[0]] + rest[0]] + rest[1..]
  }

  /** Python's `sep.join(parts)`. */
  function Join(parts: seq<string>, sep: char): string
  {
    if parts == [] then []
    else if |parts| == 1 then parts[0]
    else parts[0] + [sep] + Join(parts[1..], sep)
  }

  lemma {:induction false} JoinSplit(s: string, sep: char)
    ensures Join(Split(s, sep), sep) == s
  {
    if s != [] {
      JoinSplit(s[1..], sep);
      var rest := Split(s[1..], sep);
      assert s == [s[0]] + s[1..];
      if s[0] == sep {
        assert Split(s, sep) == [[]] + rest;
        JoinEmptyHead(rest, sep);
      } else {
        assert Split(s, sep) == [[s[0]] + rest[0]] + rest[1..];
        JoinPrepend(s[0], rest, sep);
      }
    }
  }

  /** An empty first part contributes only its separator. */
  lemma JoinEmptyHead(rest: seq<string>, sep: char)
    requires |rest| >= 1
    ensures Join([[]] + rest, sep) == [sep] + Join(rest, sep)
  {
    var parts := [[]] + rest;
    assert parts[1..] == rest;
    assert Join(parts, sep) == [] + [sep] + Join(rest, sep);
  }

  /** A character put in front of the first part comes first in the join. */
  lemma JoinPrepend(c: char, rest: seq<string>, sep: char)
    requires |rest| >= 1
    ensures Join([[c] + rest[0]] + rest[1..], sep) == [c] + Join(rest, sep)
  {
    var parts := [[c] + rest[0]] + rest[1..];
    assert parts[1..] == rest[1..];
    if |rest| > 1 {
      assert Join(parts, sep) == ([c] + rest[0]) + [sep] + Join(rest[1..], sep);
      assert Join(rest, sep) == rest[0] + [sep] + Join(rest[1..], sep);
    }
  }

  /** Splitting a join gives the parts back when no part holds the separator. */
  lemma {:induction false} SplitJoin(parts: seq<string>, sep: char)
    requires |parts| >= 1
    requires forall k :: 0 <= k < |parts| ==> sep !in parts[k]
    ensures Split(Join(parts, sep), sep) == parts
    decreases |parts|, |parts[0]|
  {
    if parts[0] == [] {
      if |parts| > 1 {
        assert Join(parts, sep) == [sep] + Join(parts[1..], sep);
        SplitJoin(parts[1..], sep);
      }
    } else {
      var p0 := parts[0];
      var shorter := [p0[1..]] + parts[1..];
      assert forall k :: 0 <= k < |shorter| ==> sep !in shorter[k] by {
        forall k | 0 <= k < |shorter| ensures sep !in shorter[k] {
          if k == 0 { assert forall c :: c in p0[1..] ==> c in p0; } else { assert shorter[k] == parts[k]; }
        }
      }
      SplitJoin(shorter, sep);
      assert p0[0] != sep;
      var j := Join(shorter, sep);
      if |parts| == 1 {
        assert Join(parts, sep) == [p0[0]] + j;
      } else {
        assert shorter[1..] == parts[1..];
        assert Join(parts, sep) == [p0[0]] + j;
      }
      assert ([p0[0]] + j)[1..] == j;
      assert [p0[0]] + p0[1..] == p0;
    }
  }

  // -------------------------------------------------------------- numbers

  function DigitChar(d: nat): char
    requires d < 10
  {
    "0123456789"[d]
  }

  /** `str(n)` for a natural number. */
  function NatToString(n: nat): (r: string)
    ensures |r| >= 1
    ensures forall i :: 0 <= i < |r| ==> IsDigit(r[i])
    decreases n
  {
    if n < 10 then [DigitChar(n)] else NatToString(n / 10) + [DigitChar(n % 10)]
  }

  /** `int(s)` on a string of ASCII digits. */
  function ParseNat(s: string): nat
  {
    if s == [] then 0
    else 10 * ParseNat(s[..|s| - 1]) + (if IsDigit(s[|s| - 1]) then s[|s| - 1] as int - '0' as int else 0)
  }

  lemma {:induction false} ParseNatToString(n: nat)
    ensures ParseNat(NatToString(n)) == n
    decreases n
  {
    if n >= 10 {
      ParseNatToString(n / 10);
      var r := NatToString(n);
      assert r[..|r| - 1] == NatToString(n / 10);
    }
  }

  /** `str(n)` for any Python int (a minus sign in front of negatives). */
  function IntToString(i: int): (r: string)
    ensures |r| >= 1
  {
    if i < 0 then "-" + NatToString(-i) else NatToString(i)
  }

  function Sum(xs: seq<nat>): nat
  {
    if xs == [] then 0 else Sum(xs[..|xs| - 1]) + xs[|xs| - 1]
  }

  lemma {:induction false} SumAppend(xs: seq<nat>, ys: seq<nat>)
    ensures Sum(xs + ys) == Sum(xs) + Sum(ys)
    decreases |ys|
  {
    if ys != [] {
      var init := ys[..|ys| - 1];
      assert (xs + ys)[..|xs + ys| - 1] == xs + init;
      assert (xs + ys)[|xs + ys| - 1] == ys[|ys| - 1];
      SumAppend(xs, init);
      assert Sum(ys) == Sum(init) + ys[|ys| - 1];
    } else {
      assert xs + ys == xs;
    }
  }

  /** Concatenation is associative. */
  lemma ConcatAssoc<T>(a: seq<T>, b: seq<T>, c: seq<T>)
    ensures a + b + c == a + (b + c)
  {
  }

  /** A prefix of a prefix is the shorter prefix. */
  lemma TakeTake<T>(s: seq<T>, n: nat, k: nat)
    requires k <= n <= |s|
    ensures s[..n][..k] == s[..k]
  {
  }

  /** Sequences without repeated elements (Python lists built through a `set`). */
  predicate Distinct<T(==)>(xs: seq<T>)
  {
    forall i, j :: 0 <= i < j < |xs| ==> xs[i] != xs[j]
  }

  /**
   * `list(set(xs))`.  Python leaves the order of the result open; the model
   * keeps each element where it first occurs.
   */
  function Dedup<T(==,!new)>(xs: seq<T>): (r: seq<T>)
    ensures Distinct(r) && |r| <= |xs|
    ensures forall x :: x in r <==> x in xs
  {
    if xs == [] then []
    else
      var rest := Dedup(xs[..|xs| - 1]);
      var x := xs[|xs| - 1];
      assert xs == xs[..|xs| - 1] + [x];
      if x in rest then rest else rest + [x]
  }

  /** `str(path)`: the components joined with `/`. */
  function PathText(p: Path): string
  {
    Join(p, '/')
  }
}
