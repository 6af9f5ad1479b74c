/**
  The parts of .NET's System.String that the backend relies on, stated on
  `seq<char>`: whitespace tests, ordinal substring search, `Split`,
  `Replace`, ordinal comparison, ASCII case folding and the decimal
  rendering of a 64-bit integer.
*/
module Strings {

  // ---------------------------------------------------------------------
  // Whitespace, emptiness, case folding
  // ---------------------------------------------------------------------

  /** Char.IsWhiteSpace: the characters Unicode marks as White_Space. */
  predicate IsWhiteSpace(c: char) {
    || ('\t' <= c <= '\r')
    || c == ' '
    || c == '\U{0085}'
    || c == '\U{00A0}'
    || c == '\U{1680}'
    || ('\U{2000}' <= c <= '\U{200A}')
    || c == '\U{2028}'
    || c == '\U{2029}'
    || c == '\U{202F}'
    || c == '\U{205F}'
    || c == '\U{3000}'
  }

  /** string.IsNullOrWhiteSpace on a non-null string: empty or only whitespace. */
  predicate IsBlank(s: string) {
    forall i :: 0 <= i < |s| ==> IsWhiteSpace(s[i])
  }

  /** Upper-case ASCII letters folded to lower case; every other character kept. */
  function FoldCase(c: char): (d: char)
    ensures 'A' <= c <= 'Z' ==> 'a' <= d <= 'z'
    ensures !('A' <= c <= 'Z') ==> d == c
  {
    if 'A' <= c <= 'Z' then (c as int - 'A' as int + 'a' as int) as char else c
  }

  /** Case-insensitive equality, the ASCII approximation of CurrentCultureIgnoreCase. */
  predicate EqualsIgnoreCase(a: string, b: string) {
    |a| == |b| && forall i :: 0 <= i < |a| ==> FoldCase(a[i]) == FoldCase(b[i])
  }

  lemma {:induction false} EqualsIgnoreCaseIsEquivalence(a: string, b: string, c: string)
    ensures EqualsIgnoreCase(a, a)
    ensures EqualsIgnoreCase(a, b) ==> EqualsIgnoreCase(b, a)
    ensures EqualsIgnoreCase(a, b) && EqualsIgnoreCase(b, c) ==> EqualsIgnoreCase(a, c)
  {
  }

  // ---------------------------------------------------------------------
  // Ordinal substring search (string.Contains) and string.Replace
  // ---------------------------------------------------------------------

  /** `sub` occurs in `s` starting at index `i`. */
  predicate OccursAt(s: string, sub: string, i: int) {
    0 <= i && i + |sub| <= |s| && s[i..i + |sub|] == sub
  }

  lemma OccursAtShift(s: string, sub: string, i: int)
    requires |s| > 0 && 0 <= i
    ensures OccursAt(s[1..], sub, i) <==> OccursAt(s, sub, i + 1)
  {
    if 0 <= i && i + |sub| <= |s| - 1 {
      assert s[1..][i..i + |sub|] == s[i + 1..i + 1 + |sub|];
    }
  }

  /** string.Contains(string): an ordinal search for `sub` anywhere in `s`. */
  function Contains(s: string, sub: string): (b: bool)
    ensures b <==> exists i :: OccursAt(s, sub, i)
    decreases |s|
  {
    if |s| < |sub| then
      false
    else if s[..|sub|] == sub then
      assert OccursAt(s, sub, 0);
      true
    else
      var r := Contains(s[1..], sub);
      assert !OccursAt(s, sub, 0);
      assert r ==> exists i :: OccursAt(s, sub, i) by {
        if r {
          var i :| OccursAt(s[1..], sub, i);
          OccursAtShift(s, sub, i);
        }
      }
      assert (exists i :: OccursAt(s, sub, i)) ==> r by {
        if exists i :: OccursAt(s, sub, i) {
          var i :| OccursAt(s, sub, i);
          OccursAtShift(s, sub, i - 1);
        }
      }
      r
  }

  /** A string lacking one of the characters of `sub` does not contain `sub`. */
  lemma MissingCharNotContained(s: string, sub: string, k: nat)
    requires k < |sub| && sub[k] !in s
    ensures !Contains(s, sub)
  {
  }

  /**
    string.Replace(pattern, replacement) with an ordinal, left-to-right,
    non-overlapping scan (the .NET behaviour for a non-empty pattern).
  */
  function Replace(s: string, pattern: string, replacement: string): string
    requires |pattern| > 0
    decreases |s|
  {
    if |s| < |pattern| then s
    else if s[..|pattern|] == pattern then replacement + Replace(s[|pattern|..], pattern, replacement)
    else [s[0]] + Replace(s[1..], pattern, replacement)
  }

  /** Replace leaves a string that does not contain the pattern as it is. */
  lemma {:induction false} ReplaceAbsent(s: string, pattern: string, replacement: string)
    requires |pattern| > 0 && !Contains(s, pattern)
    ensures Replace(s, pattern, replacement) == s
    decreases |s|
  {
    if |s| >= |pattern| {
      assert !OccursAt(s, pattern, 0);
      assert s[..|pattern|] != pattern;
      ReplaceAbsent(s[1..], pattern, replacement);
      assert [s[0]] + s[1..] == s;
    }
  }

  /** Deleting a leading pattern from `pattern + rest` leaves `rest` when `rest` has no further copy. */
  lemma ReplaceLeading(pattern: string, rest: string)
    requires |pattern| > 0 && !Contains(rest, pattern)
    ensures Replace(pattern + rest, pattern, "") == rest
  {
    var s := pattern + rest;
    assert s[..|pattern|] == pattern;
    assert s[|pattern|..] == rest;
    ReplaceAbsent(rest, pattern, "");
  }

  // ---------------------------------------------------------------------
  // string.Split(char) and its inverse, string.Join
  // ---------------------------------------------------------------------

  /** The index of the first occurrence of `c` in `s`. */
  function IndexOf(s: string, c: char): (k: nat)
    requires c in s
    ensures k < |s| && s[k] == c && c !in s[..k]
  {
    if s[0] == c then 0
    else
      var k := IndexOf(s[1..], c);
      assert s[..k + 1] == [s[0]] + s[1..][..k];
      k + 1
  }

  /** Joins the parts with `sep` between consecutive parts. */
  function Join(parts: seq<string>, sep: char): string
  {
    if |parts| == 0 then ""
    else if |parts| == 1 then parts[0]
    else parts[0] + [sep] + Join(parts[1..], sep)
  }

  /**
    string.Split(sep): the maximal pieces of `s` between separators, empty
    pieces included; the result is never empty.
  */
  function Split(s: string, sep: char): (parts: seq<string>)
    ensures |parts| >= 1
    ensures forall i :: 0 <= i < |parts| ==> sep !in parts[i]
    ensures Join(parts, sep) == s
    decreases |s|
  {
    if sep !in s then [s]
    else
      var k := IndexOf(s, sep);
      var rest := Split(s[k + 1..], sep);
      assert s == s[..k] + [sep] + s[k + 1..];
      [s[..k]] + rest
  }

  /** Splitting a joined list of separator-free parts gives those parts back. */
  lemma {:induction false} SplitJoin(parts: seq<string>, sep: char)
    requires |parts| >= 1
    requires forall i :: 0 <= i < |parts| ==> sep !in parts[i]
    ensures Split(Join(parts, sep), sep) == parts
  {
    if |parts| > 1 {
      var s := Join(parts, sep);
      var p := parts[0];
      assert s == p + [sep] + Join(parts[1..], sep);
      assert s[|p|] == sep;
      assert s[..|p|] == p;
      assert sep in s;
      var k := IndexOf(s, sep);
      assert k == |p|;
      assert s[k + 1..] == Join(parts[1..], sep);
      SplitJoin(parts[1..], sep);
      assert parts == [p] + parts[1..];
    }
  }

  // ---------------------------------------------------------------------
  // Ordinal comparison (string.Compare with StringComparison.Ordinal)
  // ---------------------------------------------------------------------

  /** `a` sorts no later than `b` under character-by-character comparison. */
  predicate OrdinalLessOrEqual(a: string, b: string)
    decreases |a|
  {
    |a| == 0 || (|b| > 0 && (a[0] < b[0] || (a[0] == b[0] && OrdinalLessOrEqual(a[1..], b[1..]))))
  }

  lemma {:induction false} OrdinalTotal(a: string, b: string)
    ensures OrdinalLessOrEqual(a, b) || OrdinalLessOrEqual(b, a)
    decreases |a|
  {
    if |a| > 0 && |b| > 0 && a[0] == b[0] { OrdinalTotal(a[1..], b[1..]); }
  }

  lemma {:induction false} OrdinalAntisymmetric(a: string, b: string)
    requires OrdinalLessOrEqual(a, b) && OrdinalLessOrEqual(b, a)
    ensures a == b
    decreases |a|
  {
    if |a| > 0 {
      OrdinalAntisymmetric(a[1..], b[1..]);
      assert a == [a[0]] + a[1..] && b == [b[0]] + b[1..];
    }
  }

  lemma {:induction false} OrdinalTransitive(a: string, b: string, c: string)
    requires OrdinalLessOrEqual(a, b) && OrdinalLessOrEqual(b, c)
    ensures OrdinalLessOrEqual(a, c)
    decreases |a|
  {
    if |a| > 0 && a[0] == b[0] && b[0] == c[0] {
      OrdinalTransitive(a[1..], b[1..], c[1..]);
    }
  }

  // ---------------------------------------------------------------------
  // long.ToString() and string.PadLeft
  // ---------------------------------------------------------------------

  /** The C# `long` range. */
  type Long = n: int | -0x8000_0000_0000_0000 <= n < 0x8000_0000_0000_0000

  predicate IsDigit(c: char) {
    '0' as int <= c as int <= '9' as int
  }

  function DigitChar(d: int): (c: char)
    requires 0 <= d < 10
    ensures IsDigit(c) && c as int - '0' as int == d
  {
    (d + '0' as int) as char
  }

  function Pow10(k: nat): (p: nat)
    ensures p >= 1
  {
    if k == 0 then 1 else 10 * Pow10(k - 1)
  }

  /** The decimal digits of `n`, most significant first, without leading zeros. */
  function NatToString(n: nat): (s: string)
    ensures |s| >= 1
    ensures forall i :: 0 <= i < |s| ==> IsDigit(s[i])
    ensures n > 0 ==> s[0] != '0'
  {
    if n < 10 then [DigitChar(n)] else NatToString(n / 10) + [DigitChar(n % 10)]
  }

  /** The value of a string of decimal digits. */
  function ParseDigits(s: string): nat
    requires forall i :: 0 <= i < |s| ==> IsDigit(s[i])
  {
    if |s| == 0 then 0
    else
      assert IsDigit(s[|s| - 1]);
      10 * ParseDigits(s[..|s| - 1]) + (s[|s| - 1] as int - '0' as int)
  }

  lemma {:induction false} ParseNatToString(n: nat)
    ensures ParseDigits(NatToString(n)) == n
  {
    if n >= 10 {
      var s := NatToString(n);
      assert s[..|s| - 1] == NatToString(n / 10);
      ParseNatToString(n / 10);
    }
  }

  lemma {:induction false} NatToStringLength(n: nat, k: nat)
    requires 1 <= k && n < Pow10(k)
    ensures |NatToString(n)| <= k
  {
    if n >= 10 {
      assert n / 10 < Pow10(k - 1);
      NatToStringLength(n / 10, k - 1);
    }
  }

  /** The magnitude of a `long` has at most 19 decimal digits. */
  lemma LongDigitsFit(m: nat)
    requires m <= 0x8000_0000_0000_0000
    ensures |NatToString(m)| <= 19
  {
    assert Pow10(10) == 10_000_000_000;
    assert Pow10(19) == 10_000_000_000_000_000_000;
    NatToStringLength(m, 19);
  }

  /** long.ToString() under an invariant culture: an optional '-' then the digits of |n|. */
  function LongToString(n: Long): (s: string)
    ensures 1 <= |s| <= 20
    ensures s[0] != '0' || s == "0"
  {
    LongDigitsFit(if n < 0 then -(n as int) else n as int);
    if n < 0 then "-" + NatToString(-(n as int)) else NatToString(n)
  }

  /** Reads back the output of LongToString. */
  function ParseLong(s: string): int
    requires |s| >= 1
    requires forall i :: (if s[0] == '-' then 1 else 0) <= i < |s| ==> IsDigit(s[i])
  {
    if s[0] == '-' then -(ParseDigits(s[1..]) as int) else ParseDigits(s)
  }

  lemma LongToStringRoundTrip(n: Long)
    ensures ParseLong(LongToString(n)) == n
  {
    var s := LongToString(n);
    if n < 0 {
      assert s[1..] == NatToString(-(n as int));
      ParseNatToString(-(n as int));
    } else {
      ParseNatToString(n);
    }
  }

  /** Joining keeps any non-whitespace character of a part. */
  lemma {:induction false} JoinNotBlank(parts: seq<string>, sep: char, i: nat)
    requires i < |parts| && !IsBlank(parts[i])
    ensures !IsBlank(Join(parts, sep))
  {
    var k :| 0 <= k < |parts[i]| && !IsWhiteSpace(parts[i][k]);
    if i == 0 {
      if |parts| > 1 {
        assert Join(parts, sep)[k] == parts[0][k];
      }
    } else {
      JoinNotBlank(parts[1..], sep, i - 1);
      var rest := Join(parts[1..], sep);
      var m :| 0 <= m < |rest| && !IsWhiteSpace(rest[m]);
      assert Join(parts, sep)[|parts[0]| + 1 + m] == rest[m];
    }
  }

  lemma LongToStringInjective(m: Long, n: Long)
    requires LongToString(m) == LongToString(n)
    ensures m == n
  {
    LongToStringRoundTrip(m);
    LongToStringRoundTrip(n);
  }

  function Repeat(c: char, k: nat): (s: string)
    ensures |s| == k && forall i :: 0 <= i < k ==> s[i] == c
  {
    if k == 0 then [] else [c] + Repeat(c, k - 1)
  }

  /** string.PadLeft(width, c): `s` preceded by enough `c` to reach `width`. */
  function PadLeft(s: string, width: nat, c: char): string
  {
    if |s| >= width then s else Repeat(c, width - |s|) + s
  }

  /** Drops leading '0' characters but keeps a final one. */
  function TrimLeadingZeros(s: string): string
  {
    if |s| > 1 && s[0] == '0' then TrimLeadingZeros(s[1..]) else s
  }

  lemma {:induction false} TrimZerosPrefix(k: nat, t: string)
    requires |t| >= 1 && (t[0] != '0' || t == "0")
    ensures TrimLeadingZeros(Repeat('0', k) + t) == t
  {
    if k > 0 {
      var s := Repeat('0', k) + t;
      assert s[0] == '0' && |s| > 1;
      assert s[1..] == Repeat('0', k - 1) + t;
      TrimZerosPrefix(k - 1, t);
    } else {
      assert Repeat('0', 0) + t == t;
    }
  }
}
