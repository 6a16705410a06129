/** The string operations the setup script relies on: suffix tests,
    POSIX path joining, `str.replace`, and decimal integers. */
module Strings {

  /** The path separator of `os.path` on POSIX systems. */
  const Sep: char := '/'

  /** `s.startswith(prefix)` */
  predicate StartsWith(s: string, prefix: string) {
    |prefix| <= |s| && s[..|prefix|] == prefix
  }

  /** `s.endswith(suffix)` */
  predicate EndsWith(s: string, suffix: string) {
    |suffix| <= |s| && s[|s| - |suffix|..] == suffix
  }

  /** `pat` occurs in `s` starting at index `i`. */
  predicate OccursAt(s: string, pat: string, i: int) {
    0 <= i && i + |pat| <= |s| && s[i..i + |pat|] == pat
  }

  /** `os.path.join(a, b)` on POSIX: an absolute `b` replaces `a`; otherwise a
      separator is inserted unless `a` is empty or already ends with one. */
  function Join(a: string, b: string): (r: string)
    ensures EndsWith(r, b)
    ensures |b| == 0 || b[0] != Sep ==> StartsWith(r, a)
    ensures |r| <= |a| + 1 + |b|
  {
    if |b| > 0 && b[0] == Sep then b
    else if |a| == 0 || a[|a| - 1] == Sep then a + b
    else a + [Sep] + b
  }

  /** `s.lstrip("/")`: `s` without its leading separators. */
  function LStripSep(s: string): (r: string)
    ensures r == [] || r[0] != Sep
    ensures |r| <= |s| && s[|s| - |r|..] == r
    ensures |r| == |s| <==> s == [] || s[0] != Sep
    decreases |s|
  {
    if |s| > 0 && s[0] == Sep then LStripSep(s[1..]) else s
  }

  /** A suffix without separators can only be seen through the last
      component: the joined path ends with `ext` exactly when `b` does. */
  lemma JoinSuffix(a: string, b: string, ext: string)
    requires Sep !in ext
    ensures EndsWith(Join(a, b), ext) <==> EndsWith(b, ext)
  {
    var r := Join(a, b);
    if |ext| > |b| && r != b {
      // The character just before `b` is a separator; a longer suffix
      // would have to contain it.
      var k := |r| - |b| - 1;
      assert r[k] == Sep;
    }
  }

  /** Python's `s.replace(pat, rep)`: every non-overlapping occurrence of
      `pat`, scanning left to right, is replaced by `rep`. An empty `pat`
      matches before every character and at the end. */
  function Replace(s: string, pat: string, rep: string): string
    decreases |s|
  {
    if |pat| == 0 then
      if |s| == 0 then rep else rep + [s[0]] + Replace(s[1..], pat, rep)
    else if |s| < |pat| then s
    else if s[..|pat|] == pat then rep + Replace(s[|pat|..], pat, rep)
    else [s[0]] + Replace(s[1..], pat, rep)
  }

  /** With no occurrence of a non-empty `pat`, `replace` leaves `s` unchanged. */
  lemma {:induction false} ReplaceAbsent(s: string, pat: string, rep: string)
    requires |pat| > 0
    requires forall i :: !OccursAt(s, pat, i)
    ensures Replace(s, pat, rep) == s
    decreases |s|
  {
    if |s| >= |pat| {
      assert !OccursAt(s, pat, 0);
      forall i ensures !OccursAt(s[1..], pat, i) {
        if OccursAt(s[1..], pat, i) {
          assert s[1..][i..i + |pat|] == s[i + 1..i + 1 + |pat|];
          assert OccursAt(s, pat, i + 1);
        }
      }
      ReplaceAbsent(s[1..], pat, rep);
    }
  }

  /** When `pat` is a prefix of `s` and occurs nowhere else, `replace` swaps
      that prefix for `rep` and keeps the rest. */
  lemma ReplaceSolePrefix(s: string, pat: string, rep: string)
    requires |pat| > 0 && StartsWith(s, pat)
    requires forall i :: 0 < i ==> !OccursAt(s, pat, i)
    ensures Replace(s, pat, rep) == rep + s[|pat|..]
  {
    var rest := s[|pat|..];
    forall i ensures !OccursAt(rest, pat, i) {
      if OccursAt(rest, pat, i) {
        assert rest[i..i + |pat|] == s[|pat| + i..|pat| + i + |pat|];
        assert OccursAt(s, pat, |pat| + i);
      }
    }
    ReplaceAbsent(rest, pat, rep);
  }

  /** A decimal digit. */
  predicate IsDigit(c: char) {
    '0' <= c <= '9'
  }

  /** Every character is a decimal digit (true of the empty string). */
  predicate AllDigits(s: string) {
    forall i :: 0 <= i < |s| ==> IsDigit(s[i])
  }

  /** `s.isnumeric()`, restricted to ASCII digits: non-empty and all digits. */
  predicate IsNumeric(s: string) {
    |s| > 0 && AllDigits(s)
  }

  /** `int(s)` for a string of decimal digits (leading zeros allowed). */
  function ParseDecimal(s: string): nat
    requires AllDigits(s)
    decreases |s|
  {
    if |s| == 0 then 0
    else 10 * ParseDecimal(s[..|s| - 1]) + ((s[|s| - 1] as int) - ('0' as int))
  }

  /** The character of a decimal digit. */
  function DigitChar(d: nat): (c: char)
    requires d < 10
    ensures IsDigit(c) && (c as int) - ('0' as int) == d
  {
    (('0' as int) + d) as char
  }

  /** `str(n)` for a non-negative integer: its shortest decimal form. */
  function DecimalString(n: nat): (r: string)
    ensures IsNumeric(r)
    ensures r[0] == '0' ==> n == 0
    decreases n
  {
    if n < 10 then [DigitChar(n)]
    else DecimalString(n / 10) + [DigitChar(n % 10)]
  }

  /** `int(str(n)) == n`. */
  lemma {:induction false} ParseDecimalString(n: nat)
    ensures ParseDecimal(DecimalString(n)) == n
    decreases n
  {
    if n >= 10 {
      var s := DecimalString(n);
      assert s[..|s| - 1] == DecimalString(n / 10);
      ParseDecimalString(n / 10);
    }
  }

  /** Distinct numbers have distinct decimal strings. */
  lemma DecimalStringInjective(m: nat, n: nat)
    requires DecimalString(m) == DecimalString(n)
    ensures m == n
  {
    ParseDecimalString(m);
    ParseDecimalString(n);
  }
}
