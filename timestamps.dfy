// Clock readings and the two textual forms the backup store gives them: the
// directory name `Backup_%Y%m%d_%H%M%S` and `datetime.isoformat()`.  Both are
// fixed-width digit fields, so comparing the texts compares the times.
module Timestamps {
  import opened Common

  /** A local wall-clock reading, as `datetime.now()` returns it. */
  datatype DateTime = DateTime(year: nat, month: nat, day: nat,
                               hour: nat, minute: nat, second: nat, microsecond: nat)

  predicate ValidDateTime(t: DateTime)
  {
    1000 <= t.year <= 9999 && 1 <= t.month <= 12 && 1 <= t.day <= 31
    && t.hour < 24 && t.minute < 60 && t.second < 60 && t.microsecond < 1000000
  }

  function Pow10(w: nat): (r: nat)
    ensures r >= 1
  {
    if w == 0 then 1 else 10 * Pow10(w - 1)
  }

  /** `n` written with exactly `w` digits, zero-padded (`%04d`, `%02d`, `%06d`). */
  function Pad(n: nat, w: nat): (r: string)
    requires n < Pow10(w)
    ensures |r| == w && forall i :: 0 <= i < w ==> IsDigit(r[i])
  {
    if w == 0 then [] else Pad(n / 10, w - 1) + [DigitChar(n % 10)]
  }

  /** Python's `<` on strings: code-point lexicographic order. */
  predicate LexLess(a: string, b: string)
  {
    if a == [] then b != []
    else if b == [] then false
    else if a[0] != b[0] then a[0] < b[0]
    else LexLess(a[1..], b[1..])
  }

  lemma {:induction false} LexLessIrreflexive(a: string)
    ensures !LexLess(a, a)
    decreases |a|
  {
    if a != [] {
      LexLessIrreflexive(a[1..]);
    }
  }

  /** Text order is a strict total order. */
  lemma {:induction false} LexLessTotal(a: string, b: string)
    ensures a == b || LexLess(a, b) || LexLess(b, a)
    ensures !(LexLess(a, b) && LexLess(b, a))
    decreases |a|
  {
    if a != [] && b != [] && a[0] == b[0] {
      LexLessTotal(a[1..], b[1..]);
      if a[1..] == b[1..] {
        assert a == [a[0]] + a[1..] && b == [b[0]] + b[1..];
      }
    }
  }

  lemma {:induction false} LexLessTransitive(a: string, b: string, c: string)
    requires LexLess(a, b) && LexLess(b, c)
    ensures LexLess(a, c)
    decreases |a|
  {
    if a != [] && a[0] == b[0] && b[0] == c[0] {
      LexLessTransitive(a[1..], b[1..], c[1..]);
    }
  }

  /** Comparing equal-length heads first: the head decides unless the heads are equal. */
  lemma {:induction false} LexLessConcat(x1: string, y1: string, x2: string, y2: string)
    requires |x1| == |x2|
    ensures LexLess(x1 + y1, x2 + y2) <==> LexLess(x1, x2) || (x1 == x2 && LexLess(y1, y2))
    decreases |x1|
  {
    if x1 != [] {
      assert (x1 + y1)[0] == x1[0] && (x2 + y2)[0] == x2[0];
      assert (x1 + y1)[1..] == x1[1..] + y1 && (x2 + y2)[1..] == x2[1..] + y2;
      LexLessConcat(x1[1..], y1, x2[1..], y2);
      if x1[0] == x2[0] {
        assert x1 == x2 <==> x1[1..] == x2[1..] by {
          assert x1 == [x1[0]] + x1[1..] && x2 == [x2[0]] + x2[1..];
        }
      }
    } else {
      assert x1 + y1 == y1 && x2 + y2 == y2;
    }
  }

  lemma DigitCharOrder(a: nat, b: nat)
    requires a < 10 && b < 10
    ensures DigitChar(a) < DigitChar(b) <==> a < b
    ensures DigitChar(a) == DigitChar(b) <==> a == b
  {
  }

  /** Zero-padded numbers of one width compare as text exactly as they compare as numbers. */
  lemma {:induction false} PadOrder(a: nat, b: nat, w: nat)
    requires a < Pow10(w) && b < Pow10(w)
    ensures LexLess(Pad(a, w), Pad(b, w)) <==> a < b
    ensures Pad(a, w) == Pad(b, w) <==> a == b
    decreases w
  {
    if w == 0 {
      assert a == 0 && b == 0;
    } else {
      PadOrder(a / 10, b / 10, w - 1);
      DigitCharOrder(a % 10, b % 10);
      LexLessConcat(Pad(a / 10, w - 1), [DigitChar(a % 10)], Pad(b / 10, w - 1), [DigitChar(b % 10)]);
      var da, db := [DigitChar(a % 10)], [DigitChar(b % 10)];
      assert LexLess(da, db) <==> a % 10 < b % 10 by {
        assert da[1..] == [] && db[1..] == [];
      }
      if Pad(a, w) == Pad(b, w) {
        assert Pad(a, w)[..w - 1] == Pad(a / 10, w - 1) && Pad(b, w)[..w - 1] == Pad(b / 10, w - 1);
        assert Pad(a, w)[w - 1] == DigitChar(a % 10) && Pad(b, w)[w - 1] == DigitChar(b % 10);
      }
    }
  }

  /** The fields after the `Backup_` prefix: `%Y%m%d_%H%M%S`. */
  function NameFields(t: DateTime): string
    requires ValidDateTime(t)
  {
    Pad(t.year, 4) + (Pad(t.month, 2) + (Pad(t.day, 2)
      + ("_" + (Pad(t.hour, 2) + (Pad(t.minute, 2) + Pad(t.second, 2))))))
  }

  /** `datetime.now().strftime("Backup_%Y%m%d_%H%M%S")`. */
  function BackupName(t: DateTime): (r: string)
    requires ValidDateTime(t)
    ensures |r| == 22 && StartsWith(r, "Backup_") && r[15] == '_'
  {
    "Backup_" + NameFields(t)
  }

  /** Chronological order, to the second. */
  predicate SecondBefore(t: DateTime, u: DateTime)
  {
    t.year < u.year
    || (t.year == u.year && (t.month < u.month
    || (t.month == u.month && (t.day < u.day
    || (t.day == u.day && (t.hour < u.hour
    || (t.hour == u.hour && (t.minute < u.minute
    || (t.minute == u.minute && t.second < u.second)))))))))
  }

  predicate SameSecond(t: DateTime, u: DateTime)
  {
    t.year == u.year && t.month == u.month && t.day == u.day
    && t.hour == u.hour && t.minute == u.minute && t.second == u.second
  }

  /** One fixed-width field followed by the rest: text order is field order, then the rest. */
  lemma FieldThen(a: nat, b: nat, w: nat, ra: string, rb: string)
    requires a < Pow10(w) && b < Pow10(w)
    ensures LexLess(Pad(a, w) + ra, Pad(b, w) + rb) <==> a < b || (a == b && LexLess(ra, rb))
    ensures Pad(a, w) + ra == Pad(b, w) + rb <==> a == b && ra == rb
  {
    PadOrder(a, b, w);
    LexLessConcat(Pad(a, w), ra, Pad(b, w), rb);
    ConcatEq(Pad(a, w), ra, Pad(b, w), rb);
  }

  lemma ConcatEq(x1: string, y1: string, x2: string, y2: string)
    requires |x1| == |x2|
    ensures x1 + y1 == x2 + y2 <==> x1 == x2 && y1 == y2
  {
    if x1 + y1 == x2 + y2 {
      assert x1 == (x1 + y1)[..|x1|] && x2 == (x2 + y2)[..|x1|];
      assert y1 == (x1 + y1)[|x1|..] && y2 == (x2 + y2)[|x1|..];
    }
  }

  /**
   * Backup directory names sort like the times they were made at: a name is
   * smaller iff its time is an earlier second, and two names are equal iff
   * they were made in the same second.
   */
  lemma BackupNameOrder(t: DateTime, u: DateTime)
    requires ValidDateTime(t) && ValidDateTime(u)
    ensures LexLess(BackupName(t), BackupName(u)) <==> SecondBefore(t, u)
    ensures BackupName(t) == BackupName(u) <==> SameSecond(t, u)
  {
    var s5t, s5u := Pad(t.minute, 2) + Pad(t.second, 2), Pad(u.minute, 2) + Pad(u.second, 2);
    var s4t, s4u := Pad(t.hour, 2) + s5t, Pad(u.hour, 2) + s5u;
    var s3t, s3u := "_" + s4t, "_" + s4u;
    var s2t, s2u := Pad(t.day, 2) + s3t, Pad(u.day, 2) + s3u;
    var s1t, s1u := Pad(t.month, 2) + s2t, Pad(u.month, 2) + s2u;
    LexLessConcat("Backup_", NameFields(t), "Backup_", NameFields(u));
    ConcatEq("Backup_", NameFields(t), "Backup_", NameFields(u));
    PadOrder(t.second, u.second, 2);
    FieldThen(t.minute, u.minute, 2, Pad(t.second, 2), Pad(u.second, 2));
    FieldThen(t.hour, u.hour, 2, s5t, s5u);
    LexLessConcat("_", s4t, "_", s4u);
    ConcatEq("_", s4t, "_", s4u);
    FieldThen(t.day, u.day, 2, s3t, s3u);
    FieldThen(t.month, u.month, 2, s2t, s2u);
    FieldThen(t.year, u.year, 4, s1t, s1u);
  }

  /** The optional `.ffffff` tail of `isoformat()`. */
  function MicroTail(t: DateTime): string
    requires ValidDateTime(t)
  {
    if t.microsecond == 0 then "" else "." + Pad(t.microsecond, 6)
  }

  /** `datetime.isoformat()`: the microseconds are written only when they are not zero. */
  function IsoFormat(t: DateTime): (r: string)
    requires ValidDateTime(t)
    ensures |r| == (if t.microsecond == 0 then 19 else 26)
  {
    Pad(t.year, 4) + ("-" + (Pad(t.month, 2) + ("-" + (Pad(t.day, 2) + ("T" + ClockText(t))))))
  }

  /** The time of day part of `isoformat()`, after the `T`. */
  function ClockText(t: DateTime): (r: string)
    requires ValidDateTime(t)
    ensures |r| == (if t.microsecond == 0 then 8 else 15)
  {
    Pad(t.hour, 2) + (":" + (Pad(t.minute, 2) + (":" + (Pad(t.second, 2) + MicroTail(t)))))
  }

  /** Chronological order, to the microsecond. */
  predicate Before(t: DateTime, u: DateTime)
  {
    SecondBefore(t, u) || (SameSecond(t, u) && t.microsecond < u.microsecond)
  }

  lemma MicroTailOrder(t: DateTime, u: DateTime)
    requires ValidDateTime(t) && ValidDateTime(u)
    ensures LexLess(MicroTail(t), MicroTail(u)) <==> t.microsecond < u.microsecond
    ensures MicroTail(t) == MicroTail(u) <==> t.microsecond == u.microsecond
  {
    if t.microsecond != 0 && u.microsecond != 0 {
      LexLessConcat(".", Pad(t.microsecond, 6), ".", Pad(u.microsecond, 6));
      ConcatEq(".", Pad(t.microsecond, 6), ".", Pad(u.microsecond, 6));
      PadOrder(t.microsecond, u.microsecond, 6);
    }
  }

  /** The time of day text orders by hour, minute, second and microsecond. */
  lemma ClockTextOrder(t: DateTime, u: DateTime)
    requires ValidDateTime(t) && ValidDateTime(u)
    ensures LexLess(ClockText(t), ClockText(u)) <==>
      t.hour < u.hour || (t.hour == u.hour && (t.minute < u.minute || (t.minute == u.minute &&
      (t.second < u.second || (t.second == u.second && t.microsecond < u.microsecond)))))
    ensures ClockText(t) == ClockText(u) <==>
      t.hour == u.hour && t.minute == u.minute && t.second == u.second && t.microsecond == u.microsecond
  {
    var m6t, m6u := Pad(t.second, 2) + MicroTail(t), Pad(u.second, 2) + MicroTail(u);
    var m5t, m5u := ":" + m6t, ":" + m6u;
    var m4t, m4u := Pad(t.minute, 2) + m5t, Pad(u.minute, 2) + m5u;
    var m3t, m3u := ":" + m4t, ":" + m4u;
    MicroTailOrder(t, u);
    FieldThen(t.second, u.second, 2, MicroTail(t), MicroTail(u));
    LexLessConcat(":", m6t, ":", m6u);
    ConcatEq(":", m6t, ":", m6u);
    FieldThen(t.minute, u.minute, 2, m5t, m5u);
    LexLessConcat(":", m4t, ":", m4u);
    ConcatEq(":", m4t, ":", m4u);
    FieldThen(t.hour, u.hour, 2, m3t, m3u);
  }

  /**
   * The manifest timestamps sort like the times they record: `isoformat()`
   * text order is chronological order, and equal texts are equal times.
   */
  lemma IsoFormatOrder(t: DateTime, u: DateTime)
    requires ValidDateTime(t) && ValidDateTime(u)
    ensures LexLess(IsoFormat(t), IsoFormat(u)) <==> Before(t, u)
    ensures IsoFormat(t) == IsoFormat(u) <==> t == u
  {
    var h3t, h3u := ClockText(t), ClockText(u);
    var h2t, h2u := "T" + h3t, "T" + h3u;
    var d2t, d2u := Pad(t.day, 2) + h2t, Pad(u.day, 2) + h2u;
    var d1t, d1u := "-" + d2t, "-" + d2u;
    var o2t, o2u := Pad(t.month, 2) + d1t, Pad(u.month, 2) + d1u;
    var o1t, o1u := "-" + o2t, "-" + o2u;
    ClockTextOrder(t, u);
    LexLessConcat("T", h3t, "T", h3u);
    ConcatEq("T", h3t, "T", h3u);
    FieldThen(t.day, u.day, 2, h2t, h2u);
    LexLessConcat("-", d2t, "-", d2u);
    ConcatEq("-", d2t, "-", d2u);
    FieldThen(t.month, u.month, 2, d1t, d1u);
    LexLessConcat("-", o2t, "-", o2u);
    ConcatEq("-", o2t, "-", o2u);
    FieldThen(t.year, u.year, 4, o1t, o1u);
  }
}
