/**
 * The handful of Python string operations the client relies on, written out
 * over `seq<char>`: `str.isspace`, `str.lower` (ASCII letters only),
 * `str.strip`, `str.startswith`, `str.split(sep)`, `sep.join(parts)`,
 * `str.ljust(width)`, `"-" * n` and `str(n)` for a natural number.
 */
module Text {

  // ---------------------------------------------------------------------------
  // Whitespace and case
  // ---------------------------------------------------------------------------

  /** The characters Python's `str.isspace()` accepts (the ones `str.strip()` removes). */
  predicate IsSpace(c: char) {
    || c == ' '
    || ('\t' <= c <= '\r')                // \t \n \v \f \r
    || ('\U{1C}' <= c <= '\U{1F}')        // file, group, record and unit separators
    || c == '\U{85}' || c == '\U{A0}' || c == '\U{1680}'
    || ('\U{2000}' <= c <= '\U{200A}')
    || c == '\U{2028}' || c == '\U{2029}' || c == '\U{202F}' || c == '\U{205F}' || c == '\U{3000}'
  }

  predicate AllSpace(s: string) {
    forall k :: 0 <= k < |s| ==> IsSpace(s[k])
  }

  /** An ASCII capital letter. */
  predicate IsUpper(c: char) {
    'A' <= c <= 'Z'
  }

  /** How far apart an ASCII capital and its small letter are in the code table. */
  const CaseOffset: int := 'a' as int - 'A' as int

  /** Lower-cases an ASCII letter and leaves every other character alone. */
  function LowerChar(c: char): (d: char)
    ensures IsUpper(c) ==> d as int == c as int + CaseOffset && 'a' <= d <= 'z'
    ensures !IsUpper(c) ==> d == c
    ensures IsSpace(d) <==> IsSpace(c)
  {
    if IsUpper(c) then (c as int + CaseOffset) as char else c
  }

  /**
   * `s.lower()`, restricted to ASCII letters: no capital is left, and every
   * character is either kept or is the small partner of the capital it replaces.
   */
  function Lower(s: string): (r: string)
    ensures |r| == |s|
    ensures forall k :: 0 <= k < |r| ==> !IsUpper(r[k])
    ensures forall k :: 0 <= k < |s| ==>
              r[k] == s[k] || (IsUpper(s[k]) && r[k] as int == s[k] as int + CaseOffset)
  {
    seq(|s|, k requires 0 <= k < |s| => LowerChar(s[k]))
  }

  /**
   * The two strings agree letter for letter, except that an ASCII capital in
   * one may stand where the other has its small letter.
   */
  predicate EqualUpToCase(a: string, b: string) {
    && |a| == |b|
    && forall k :: 0 <= k < |a| ==>
         || a[k] == b[k]
         || (IsUpper(a[k]) && b[k] as int == a[k] as int + CaseOffset)
         || (IsUpper(b[k]) && a[k] as int == b[k] as int + CaseOffset)
  }

  /** Strings that differ only in ASCII case lower-case to the same string. */
  lemma LowerIgnoresCase(a: string, b: string)
    requires EqualUpToCase(a, b)
    ensures Lower(a) == Lower(b)
  {
    forall k | 0 <= k < |a| ensures Lower(a)[k] == Lower(b)[k] {
      assert Lower(a)[k] == LowerChar(a[k]) && Lower(b)[k] == LowerChar(b[k]);
    }
  }

  lemma LowerAppend(s: string, t: string)
    ensures Lower(s + t) == Lower(s) + Lower(t)
  {
  }

  lemma LowerKeepsSpace(s: string)
    requires AllSpace(s)
    ensures AllSpace(Lower(s))
  {
  }

  // ---------------------------------------------------------------------------
  // Stripping
  // ---------------------------------------------------------------------------

  /** `s.lstrip()`: the suffix of `s` left after dropping leading whitespace. */
  function TrimLeft(s: string): (r: string)
    ensures |r| <= |s| && r == s[|s| - |r|..]
    ensures AllSpace(s[..|s| - |r|])
    ensures |r| > 0 ==> !IsSpace(r[0])
  {
    if |s| > 0 && IsSpace(s[0]) then TrimLeft(s[1..]) else s
  }

  /** `s.rstrip()`: the prefix of `s` left after dropping trailing whitespace. */
  function TrimRight(s: string): (r: string)
    ensures |r| <= |s| && r == s[..|r|]
    ensures AllSpace(s[|r|..])
    ensures |r| > 0 ==> !IsSpace(r[|r| - 1])
  {
    if |s| > 0 && IsSpace(s[|s| - 1]) then TrimRight(s[..|s| - 1]) else s
  }

  /** `s.strip()`. */
  function Strip(s: string): string {
    TrimRight(TrimLeft(s))
  }

  /** `s` is `r` with the whitespace `s[..i]` before it and whitespace after it. */
  predicate PaddedAt(s: string, i: nat, r: string) {
    && i + |r| <= |s|
    && r == s[i..i + |r|]
    && AllSpace(s[..i])
    && AllSpace(s[i + |r|..])
  }

  /**
   * What `strip()` returns: the middle of `s` between a whitespace prefix
   * and a whitespace suffix, neither starting nor ending with whitespace.
   */
  lemma StripShape(s: string)
    ensures exists i :: PaddedAt(s, i, Strip(s))
    ensures var r := Strip(s);
            |r| > 0 ==> !IsSpace(r[0]) && !IsSpace(r[|r| - 1])
  {
    var t := TrimLeft(s);
    var r := TrimRight(t);
    MiddleSlice(s, t, r);
    assert Strip(s) == r;
    assert PaddedAt(s, |s| - |t|, Strip(s));
    assert |r| > 0 ==> !IsSpace(r[0]) by {
      if |t| > 0 { TrimRightKeepsHead(t); }
    }
  }

  /** `strip()` keeps a first character that is not whitespace. */
  lemma StripFirst(s: string)
    requires |s| > 0 && !IsSpace(s[0])
    ensures |Strip(s)| > 0 && Strip(s)[0] == s[0]
  {
    assert TrimLeft(s) == s;
    TrimRightKeepsHead(s);
  }

  /** A prefix `r` of a suffix `t` of `s`, with whitespace cut off around both, is a padded middle. */
  lemma MiddleSlice(s: string, t: string, r: string)
    requires |t| <= |s| && t == s[|s| - |t|..] && AllSpace(s[..|s| - |t|])
    requires |r| <= |t| && r == t[..|r|] && AllSpace(t[|r|..])
    ensures PaddedAt(s, |s| - |t|, r)
  {
    var i := |s| - |t|;
    assert s[i..i + |r|] == t[..|r|];
    assert s[i + |r|..] == t[|r|..];
  }

  lemma {:induction false} TrimLeftSpaces(p: string, x: string)
    requires AllSpace(p)
    ensures TrimLeft(p + x) == TrimLeft(x)
    decreases |p|
  {
    if |p| > 0 {
      assert (p + x)[1..] == p[1..] + x;
      TrimLeftSpaces(p[1..], x);
    } else {
      assert p + x == x;
    }
  }

  lemma {:induction false} TrimRightSpaces(x: string, q: string)
    requires AllSpace(q)
    ensures TrimRight(x + q) == TrimRight(x)
    decreases |q|
  {
    if |q| > 0 {
      assert (x + q)[..|x + q| - 1] == x + q[..|q| - 1];
      TrimRightSpaces(x, q[..|q| - 1]);
    } else {
      assert x + q == x;
    }
  }

  lemma {:induction false} TrimLeftAppend(x: string, q: string)
    ensures TrimLeft(x + q) == if TrimLeft(x) == [] then TrimLeft(q) else TrimLeft(x) + q
    decreases |x|
  {
    if |x| == 0 {
      assert x + q == q;
    } else if IsSpace(x[0]) {
      assert (x + q)[1..] == x[1..] + q;
      TrimLeftAppend(x[1..], q);
    }
  }

  lemma {:induction false} TrimLeftAllSpace(s: string)
    requires AllSpace(s)
    ensures TrimLeft(s) == []
    decreases |s|
  {
    if |s| > 0 {
      TrimLeftAllSpace(s[1..]);
    }
  }

  /** Whitespace around the input does not change what `strip()` returns. */
  lemma StripPadding(p: string, s: string, q: string)
    requires AllSpace(p) && AllSpace(q)
    ensures Strip(p + s + q) == Strip(s)
  {
    assert p + s + q == p + (s + q);
    TrimLeftSpaces(p, s + q);
    assert TrimLeft(p + s + q) == TrimLeft(s + q);
    TrimLeftAppend(s, q);
    if TrimLeft(s) == [] {
      TrimLeftAllSpace(q);
      assert TrimLeft(s + q) == [];
    } else {
      assert TrimLeft(s + q) == TrimLeft(s) + q;
      TrimRightSpaces(TrimLeft(s), q);
    }
  }

  lemma {:induction false} TrimRightKeepsHead(s: string)
    requires |s| > 0 && !IsSpace(s[0])
    ensures |TrimRight(s)| > 0 && TrimRight(s)[0] == s[0]
    decreases |s|
  {
    if IsSpace(s[|s| - 1]) {
      TrimRightKeepsHead(s[..|s| - 1]);
    }
  }

  // ---------------------------------------------------------------------------
  // Prefixes, splitting and joining
  // ---------------------------------------------------------------------------

  /** `s.startswith(prefix)`. */
  predicate StartsWith(s: string, prefix: string) {
    |prefix| <= |s| && s[..|prefix|] == prefix
  }

  /**
   * `sep.join(parts)`: empty for no parts; otherwise it starts with the first
   * part, which is followed by the separator when more parts come.
   */
  function JoinWith(parts: seq<string>, sep: string): (r: string)
    ensures |parts| == 0 ==> r == []
    ensures |parts| == 1 ==> r == parts[0]
    decreases |parts|
  {
    if |parts| == 0 then []
    else if |parts| == 1 then parts[0]
    else parts[0] + sep + JoinWith(parts[1..], sep)
  }

  /**
   * `s.split(sep)` for a one-character separator: every occurrence splits,
   * and empty pieces are kept.
   */
  function SplitOn(s: string, sep: char): (pieces: seq<string>)
    ensures |pieces| >= 1
    ensures forall k :: 0 <= k < |pieces| ==> sep !in pieces[k]
    decreases |s|
  {
    if |s| == 0 then [[]]
    else
      var rest := SplitOn(s[1..], sep);
      if s[0] == sep then [[]] + rest
      else [[s[0]] + rest[0]] + rest[1..]
  }

  /** Joining the pieces of a split with the separator gives back the input. */
  lemma {:induction false} SplitJoin(s: string, sep: char)
    ensures JoinWith(SplitOn(s, sep), [sep]) == s
    decreases |s|
  {
    if |s| > 0 {
      var rest := SplitOn(s[1..], sep);
      SplitJoin(s[1..], sep);
      if s[0] == sep {
        assert ([[]] + rest)[1..] == rest;
      } else {
        var pieces := [[s[0]] + rest[0]] + rest[1..];
        assert pieces[1..] == rest[1..];
        if |rest| > 1 {
          assert JoinWith(rest, [sep]) == rest[0] + [sep] + JoinWith(rest[1..], [sep]);
        }
      }
    }
  }

  /** The first piece of a split is the text before the first separator. */
  lemma {:induction false} SplitHead(s: string, sep: char)
    ensures var head := SplitOn(s, sep)[0];
            |head| <= |s| && s[..|head|] == head && (|head| == |s| || s[|head|] == sep)
    decreases |s|
  {
    if |s| > 0 && s[0] != sep {
      SplitHead(s[1..], sep);
    }
  }

  /** A separator right after a separator-free prefix makes that prefix the first piece. */
  lemma SplitAfter(p: string, sep: char, q: string)
    requires sep !in p
    ensures SplitOn(p + [sep] + q, sep) == [p] + SplitOn(q, sep)
    decreases |p|
  {
    if |p| == 0 {
      assert p + [sep] + q == [sep] + q;
      assert ([sep] + q)[1..] == q;
    } else {
      assert (p + [sep] + q)[1..] == p[1..] + [sep] + q;
      SplitAfter(p[1..], sep, q);
      assert [p[0]] + p[1..] == p;
    }
  }

  // ---------------------------------------------------------------------------
  // Padding and rules
  // ---------------------------------------------------------------------------

  /** `c * n` for a one-character string `c`. */
  function Repeat(c: char, n: nat): (r: string)
    ensures |r| == n
    ensures forall k :: 0 <= k < n ==> r[k] == c
  {
    seq(n, _ => c)
  }

  /** `"-" * n`: a horizontal rule. */
  function Dashes(n: nat): (r: string)
    ensures |r| == n && forall k :: 0 <= k < n ==> r[k] == '-'
  {
    Repeat('-', n)
  }

  /** `s.ljust(width)`: `s` followed by spaces up to `width`; unchanged when already that long. */
  function LJust(s: string, width: nat): (r: string)
    ensures |r| == if |s| < width then width else |s|
    ensures r[..|s|] == s
    ensures forall k :: |s| <= k < |r| ==> r[k] == ' '
  {
    if |s| < width then s + Repeat(' ', width - |s|) else s
  }

  // ---------------------------------------------------------------------------
  // Decimal numerals
  // ---------------------------------------------------------------------------

  predicate IsDigit(c: char) {
    '0' <= c <= '9'
  }

  predicate AllDigits(s: string) {
    forall k :: 0 <= k < |s| ==> IsDigit(s[k])
  }

  function DigitChar(d: nat): (c: char)
    requires d < 10
    ensures IsDigit(c)
  {
    ('0' as int + d) as char
  }

  /** `str(n)` for a natural number: its decimal numeral, without leading zeros. */
  function NatToString(n: nat): (s: string)
    ensures |s| >= 1 && AllDigits(s)
    ensures |s| > 1 ==> s[0] != '0'
    decreases n
  {
    if n < 10 then [DigitChar(n)] else NatToString(n / 10) + [DigitChar(n % 10)]
  }

  /** The value of a decimal numeral (an independent reading of `NatToString`). */
  function ParseDecimal(s: string): nat
    requires AllDigits(s)
    decreases |s|
  {
    if |s| == 0 then 0
    else 10 * ParseDecimal(s[..|s| - 1]) + (s[|s| - 1] as int - '0' as int)
  }

  /** Reading back the numeral of `n` gives `n`. */
  lemma {:induction false} DecimalRoundTrip(n: nat)
    ensures ParseDecimal(NatToString(n)) == n
    decreases n
  {
    if n >= 10 {
      var s := NatToString(n);
      assert s[..|s| - 1] == NatToString(n / 10);
      DecimalRoundTrip(n / 10);
    }
  }
}
