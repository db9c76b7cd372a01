/**
 * The PHP string primitives the sitemap code relies on, on `seq<char>`:
 * `strtolower`, `rtrim`/`trim` with a character list, `str_starts_with`,
 * `str_ends_with`, `str_contains`, `explode`, decimal rendering of integers,
 * `is_numeric`/`(int)` for plain decimal strings and PHP string truthiness.
 */
module Text {

  // ---------------------------------------------------------------------------
  // Case folding
  // ---------------------------------------------------------------------------

  predicate IsUpper(c: char) {
    'A' <= c <= 'Z'
  }

  /** ASCII-only lower-casing of one character, as PHP 8's `strtolower` does. */
  function LowerChar(c: char): char {
    if IsUpper(c) then (c as int + 32) as char else c
  }

  /** `strtolower`. */
  function Lower(s: string): (r: string)
    ensures |r| == |s|
    ensures forall i :: 0 <= i < |s| ==> r[i] == LowerChar(s[i])
  {
    seq(|s|, i requires 0 <= i < |s| => LowerChar(s[i]))
  }

  /** No ASCII capital anywhere in `s`. */
  predicate NoUpper(s: string) {
    forall i :: 0 <= i < |s| ==> !IsUpper(s[i])
  }

  lemma LowerConcat(a: string, b: string)
    ensures Lower(a + b) == Lower(a) + Lower(b)
  {
  }

  lemma LowerIsLowercase(s: string)
    ensures NoUpper(Lower(s))
  {
  }

  lemma LowerIdempotent(s: string)
    ensures Lower(Lower(s)) == Lower(s)
  {
  }

  /** A string that has no capitals is its own lower-case form. */
  lemma LowerOfNoUpper(s: string)
    requires NoUpper(s)
    ensures Lower(s) == s
  {
  }

  /** Lower-casing never creates or removes a character outside the letters A-Z. */
  lemma LowerCharKeepsNonLetters(c: char)
    ensures !IsUpper(c) ==> LowerChar(c) == c
    ensures LowerChar(c) == c || ('a' <= LowerChar(c) <= 'z')
  {
  }

  // ---------------------------------------------------------------------------
  // Trimming with a character list
  // ---------------------------------------------------------------------------

  const Slash: set<char> := {'/'}

  /** The default character list of PHP's `trim`: space, tab, LF, CR, NUL, vertical tab. */
  const Blank: set<char> := {' ', '\t', '\n', '\r', 0 as char, 11 as char}

  /** `rtrim($s, $chars)`: the longest prefix of `s` that does not end in a trimmed character. */
  function TrimRight(s: string, cs: set<char>): (r: string)
    ensures r <= s
    ensures |r| == 0 || r[|r| - 1] !in cs
    ensures forall i :: |r| <= i < |s| ==> s[i] in cs
    decreases |s|
  {
    if |s| > 0 && s[|s| - 1] in cs then TrimRight(s[..|s| - 1], cs) else s
  }

  /** `ltrim($s, $chars)`: the longest suffix of `s` that does not start with a trimmed character. */
  function TrimLeft(s: string, cs: set<char>): (r: string)
    ensures |r| <= |s| && r == s[|s| - |r|..]
    ensures |r| == 0 || r[0] !in cs
    ensures forall i :: 0 <= i < |s| - |r| ==> s[i] in cs
    decreases |s|
  {
    if |s| > 0 && s[0] in cs then TrimLeft(s[1..], cs) else s
  }

  /** `trim($s, $chars)`: neither end of the result is a trimmed character. */
  function Trim(s: string, cs: set<char>): (r: string)
    ensures |r| == 0 || (r[0] !in cs && r[|r| - 1] !in cs)
  {
    TrimLeft(TrimRight(s, cs), cs)
  }

  /** Appending trimmed characters does not change what `rtrim` returns. */
  lemma {:induction false} TrimRightIgnoresTrailing(s: string, t: string, cs: set<char>)
    requires forall i :: 0 <= i < |t| ==> t[i] in cs
    ensures TrimRight(s + t, cs) == TrimRight(s, cs)
    decreases |t|
  {
    if |t| > 0 {
      var u := t[..|t| - 1];
      assert (s + t)[..|s + t| - 1] == s + u;
      TrimRightIgnoresTrailing(s, u, cs);
    } else {
      assert s + t == s;
    }
  }

  /** Prepending trimmed characters does not change what `ltrim` returns. */
  lemma {:induction false} TrimLeftIgnoresLeading(t: string, s: string, cs: set<char>)
    requires forall i :: 0 <= i < |t| ==> t[i] in cs
    ensures TrimLeft(t + s, cs) == TrimLeft(s, cs)
    decreases |t|
  {
    if |t| > 0 {
      assert (t + s)[1..] == t[1..] + s;
      TrimLeftIgnoresLeading(t[1..], s, cs);
    } else {
      assert t + s == s;
    }
  }

  /** `trim` removes exactly the trimmed characters around a string that neither starts nor ends with one. */
  lemma TrimSurrounded(a: string, s: string, b: string, cs: set<char>)
    requires forall i :: 0 <= i < |a| ==> a[i] in cs
    requires forall i :: 0 <= i < |b| ==> b[i] in cs
    requires |s| > 0 && s[0] !in cs && s[|s| - 1] !in cs
    ensures Trim(a + s + b, cs) == s
  {
    TrimRightIgnoresTrailing(a + s, b, cs);
    assert (a + s)[|a + s| - 1] == s[|s| - 1];
    TrimRightNoop(a + s, cs);
    TrimLeftIgnoresLeading(a, s, cs);
  }

  /** `rtrim` applied twice is `rtrim` applied once. */
  lemma TrimRightIdempotent(s: string, cs: set<char>)
    ensures TrimRight(TrimRight(s, cs), cs) == TrimRight(s, cs)
  {
  }

  /** `rtrim` of a string that does not end in a trimmed character is the string itself. */
  lemma TrimRightNoop(s: string, cs: set<char>)
    requires |s| == 0 || s[|s| - 1] !in cs
    ensures TrimRight(s, cs) == s
  {
  }

  /** Lower-casing commutes with trimming slashes. */
  lemma {:induction false} LowerTrimRightSlash(s: string)
    ensures Lower(TrimRight(s, Slash)) == TrimRight(Lower(s), Slash)
    decreases |s|
  {
    if |s| > 0 && s[|s| - 1] in Slash {
      LowerTrimRightSlash(s[..|s| - 1]);
      assert Lower(s)[..|s| - 1] == Lower(s[..|s| - 1]);
    } else {
      var l := Lower(s);
      assert |l| == 0 || l[|l| - 1] !in Slash;
    }
  }

  // ---------------------------------------------------------------------------
  // Prefixes, suffixes and substrings
  // ---------------------------------------------------------------------------

  /** `str_starts_with`. */
  predicate StartsWith(s: string, p: string) {
    p <= s
  }

  /** `str_ends_with`. */
  predicate EndsWith(s: string, x: string) {
    |x| <= |s| && s[|s| - |x|..] == x
  }

  /** `p` occurs in `s` at position `i`. */
  predicate OccursAt(s: string, p: string, i: int) {
    0 <= i <= |s| - |p| && s[i..i + |p|] == p
  }

  /** Scan for an occurrence of `p` in `s` at position `from` or later. */
  function ContainsFrom(s: string, p: string, from: nat): (b: bool)
    ensures b <==> exists i :: from <= i && OccursAt(s, p, i)
    decreases |s| - from
  {
    if from + |p| > |s| then false
    else if s[from..from + |p|] == p then
      assert OccursAt(s, p, from);
      true
    else ContainsFrom(s, p, from + 1)
  }

  /** `str_contains`: true for the empty needle, as in PHP 8. */
  function Contains(s: string, p: string): (b: bool)
    ensures b <==> exists i :: OccursAt(s, p, i)
  {
    ContainsFrom(s, p, 0)
  }

  // ---------------------------------------------------------------------------
  // explode / implode on one separator character
  // ---------------------------------------------------------------------------

  /** The position of the first `c` in `s`. */
  function IndexOf(s: string, c: char): (k: nat)
    requires c in s
    ensures k < |s| && s[k] == c && c !in s[..k]
  {
    if s[0] == c then 0 else 1 + IndexOf(s[1..], c)
  }

  /** The first occurrence is the one with no earlier occurrence. */
  lemma {:induction false} IndexOfUnique(s: string, c: char, j: nat)
    requires j < |s| && s[j] == c && c !in s[..j]
    ensures IndexOf(s, c) == j
    decreases j
  {
    if j > 0 {
      assert s[0] == s[..j][0];
      assert s[1..][..j - 1] == s[..j][1..];
      IndexOfUnique(s[1..], c, j - 1);
    }
  }

  /** `implode`: the parts with one separator between neighbours. */
  function Join(parts: seq<string>, sep: char): string {
    if |parts| == 0 then ""
    else if |parts| == 1 then parts[0]
    else parts[0] + [sep] + Join(parts[1..], sep)
  }

  /**
   * `explode($sep, $s)`: the pieces between separators. There is always at
   * least one piece, no piece holds a separator, and joining the pieces back
   * gives `s`.
   */
  function Split(s: string, sep: char): (r: seq<string>)
    ensures |r| >= 1
    ensures forall i :: 0 <= i < |r| ==> sep !in r[i]
    ensures Join(r, sep) == s
    decreases |s|
  {
    if sep in s then
      var k := IndexOf(s, sep);
      var rest := Split(s[k + 1..], sep);
      assert s == s[..k] + [sep] + s[k + 1..];
      [s[..k]] + rest
    else
      [s]
  }

  /** Splitting joined pieces that hold no separator gives the pieces back. */
  lemma {:induction false} SplitJoin(parts: seq<string>, sep: char)
    requires |parts| >= 1
    requires forall i :: 0 <= i < |parts| ==> sep !in parts[i]
    ensures Split(Join(parts, sep), sep) == parts
    decreases |parts|
  {
    if |parts| > 1 {
      var p0 := parts[0];
      var rest := Join(parts[1..], sep);
      var s := p0 + [sep] + rest;
      assert s[|p0|] == sep;
      assert s[..|p0|] == p0;
      IndexOfUnique(s, sep, |p0|);
      var k := IndexOf(s, sep);
      assert s[k + 1..] == rest;
      SplitJoin(parts[1..], sep);
      assert [p0] + parts[1..] == parts;
    }
  }

  /** Number of occurrences of `c` in `s`. */
  function Count(s: string, c: char): nat {
    if |s| == 0 then 0 else (if s[0] == c then 1 else 0) + Count(s[1..], c)
  }

  lemma {:induction false} CountConcat(a: string, b: string, c: char)
    ensures Count(a + b, c) == Count(a, c) + Count(b, c)
    decreases |a|
  {
    if |a| == 0 {
      assert a + b == b;
    } else {
      assert (a + b)[1..] == a[1..] + b;
      CountConcat(a[1..], b, c);
    }
  }

  lemma {:induction false} CountAbsent(s: string, c: char)
    requires c !in s
    ensures Count(s, c) == 0
    decreases |s|
  {
    if |s| > 0 {
      CountAbsent(s[1..], c);
    }
  }

  /** `explode` yields one piece more than there are separators. */
  lemma {:induction false} SplitCount(s: string, sep: char)
    ensures |Split(s, sep)| == Count(s, sep) + 1
    decreases |s|
  {
    if sep in s {
      var k := IndexOf(s, sep);
      SplitCount(s[k + 1..], sep);
      assert s == s[..k] + ([sep] + s[k + 1..]);
      CountConcat(s[..k], [sep] + s[k + 1..], sep);
      CountConcat([sep], s[k + 1..], sep);
      CountAbsent(s[..k], sep);
    } else {
      CountAbsent(s, sep);
    }
  }

  // ---------------------------------------------------------------------------
  // Decimal numbers
  // ---------------------------------------------------------------------------

  predicate IsDigit(c: char) {
    '0' <= c <= '9'
  }

  predicate AllDigits(s: string) {
    forall i :: 0 <= i < |s| ==> IsDigit(s[i])
  }

  function DigitChar(d: nat): (c: char)
    requires d < 10
    ensures IsDigit(c)
  {
    ('0' as int + d) as char
  }

  function DigitValue(c: char): nat
    requires IsDigit(c)
  {
    c as int - '0' as int
  }

  /** Decimal rendering without leading zeros, as `sprintf('%d')` and string interpolation give it. */
  function NatToString(n: nat): (r: string)
    ensures |r| >= 1 && AllDigits(r)
    decreases n
  {
    if n < 10 then [DigitChar(n)] else NatToString(n / 10) + [DigitChar(n % 10)]
  }

  /** The value of a string of decimal digits. */
  function DigitsValue(s: string): nat
    requires AllDigits(s)
    decreases |s|
  {
    if |s| == 0 then 0 else DigitsValue(s[..|s| - 1]) * 10 + DigitValue(s[|s| - 1])
  }

  /** Reading back a rendered number gives the number. */
  lemma {:induction false} NatToStringRoundTrip(n: nat)
    ensures DigitsValue(NatToString(n)) == n
    decreases n
  {
    if n >= 10 {
      NatToStringRoundTrip(n / 10);
      var s := NatToString(n);
      assert s[..|s| - 1] == NatToString(n / 10);
    }
  }

  /** Distinct numbers render to distinct strings. */
  lemma NatToStringInjective(a: nat, b: nat)
    requires NatToString(a) == NatToString(b)
    ensures a == b
  {
    NatToStringRoundTrip(a);
    NatToStringRoundTrip(b);
  }

  /** The number of leading digits of `s`. */
  function LeadingDigits(s: string): (k: nat)
    ensures k <= |s| && AllDigits(s[..k]) && (k == |s| || !IsDigit(s[k]))
    decreases |s|
  {
    if |s| > 0 && IsDigit(s[0]) then
      var k := 1 + LeadingDigits(s[1..]);
      assert s[..k] == [s[0]] + s[1..][..k - 1];
      k
    else 0
  }

  /** `s` with one leading `+` or `-` removed. */
  function Unsigned(s: string): string {
    if |s| > 0 && (s[0] == '+' || s[0] == '-') then s[1..] else s
  }

  /**
   * PHP's `is_numeric` restricted to plain decimal notation: an optional sign,
   * then digits with an optional fractional part, at least one digit in all.
   */
  predicate IsNumeric(s: string) {
    var b := Unsigned(s);
    var k := LeadingDigits(b);
    var frac := b[k..];
    (|frac| == 0 && k > 0)
    || (|frac| >= 1 && frac[0] == '.' && AllDigits(frac[1..]) && (k > 0 || |frac| > 1))
  }

  /** PHP's `(int)` cast of a string: the signed value of its leading integer digits. */
  function IntCast(s: string): int {
    var b := Unsigned(s);
    var v: int := DigitsValue(b[..LeadingDigits(b)]);
    if |s| > 0 && s[0] == '-' then -v else v
  }

  /** A rendered natural number is numeric and casts back to itself. */
  lemma NatToStringNumeric(n: nat)
    ensures IsNumeric(NatToString(n))
    ensures IntCast(NatToString(n)) == n
  {
    var s := NatToString(n);
    assert Unsigned(s) == s;
    assert LeadingDigits(s) == |s|;
    assert s[..|s|] == s;
    NatToStringRoundTrip(n);
  }

  // ---------------------------------------------------------------------------
  // PHP truthiness
  // ---------------------------------------------------------------------------

  /** A PHP string is falsy when it is empty or exactly "0" (`empty()`, `if ($s)`). */
  predicate Truthy(s: string) {
    s != "" && s != "0"
  }
}
