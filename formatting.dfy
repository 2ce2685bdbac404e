/**
 * Text helpers shared by the histogram-name codec, the extraction macros and the job
 * preparation script: printf's "%d" and "%0Nd", the C++ library's std::stoi, splitting a
 * stream with std::getline on a delimiter, and substring search.
 */
module Formatting {
  import opened Wrappers

  /** The range of a C++ int, which std::stoi enforces. */
  const IntMin: int := -0x8000_0000
  const IntMax: int := 0x7fff_ffff

  predicate IsInt32(i: int) { IntMin <= i <= IntMax }

  predicate IsDigit(c: char) { '0' <= c <= '9' }

  predicate AllDigits(s: string) { forall i :: 0 <= i < |s| ==> IsDigit(s[i]) }

  /** What isspace accepts in the "C" locale; std::stoi skips these first. */
  predicate IsSpace(c: char) { c == ' ' || c == '\t' || c == '\n' || c == '\U{B}' || c == '\U{C}' || c == '\r' }

  function DigitChar(d: nat): (c: char)
    requires d < 10
    ensures IsDigit(c)
  {
    ('0' as int + d) as char
  }

  function DigitValue(c: char): (d: nat)
    requires IsDigit(c)
    ensures d < 10
  {
    c as int - '0' as int
  }

  /** Decimal digits of n with no leading zero ("0" for zero). */
  function NatDigits(n: nat): (s: string)
    ensures 1 <= |s| && AllDigits(s)
    ensures n > 0 ==> s[0] != '0'
    decreases n
  {
    if n < 10 then [DigitChar(n)] else NatDigits(n / 10) + [DigitChar(n % 10)]
  }

  function Zeros(k: nat): (s: string)
    ensures |s| == k && AllDigits(s)
  {
    if k == 0 then [] else Zeros(k - 1) + ['0']
  }

  /** Left-pads a digit string with '0' up to the given width. */
  function ZeroPad(s: string, width: nat): (r: string)
    ensures |r| == if |s| < width then width else |s|
  {
    if |s| < width then Zeros(width - |s|) + s else s
  }

  /** printf's "%0<width>d": zeros go between the sign and the digits. */
  function FormatPadded(i: int, width: nat): string {
    if i < 0 then "-" + ZeroPad(NatDigits(-i), if width > 0 then width - 1 else 0)
    else ZeroPad(NatDigits(i), width)
  }

  /** printf's "%d". */
  function FormatInt(i: int): string {
    FormatPadded(i, 0)
  }

  /** Value of a string of decimal digits, most significant first. */
  function DigitsValue(s: string): nat
    requires AllDigits(s)
  {
    if s == [] then 0 else DigitsValue(s[..|s| - 1]) * 10 + DigitValue(s[|s| - 1])
  }

  /** The longest prefix of s made of digits. */
  function DigitPrefix(s: string): (p: string)
    ensures AllDigits(p) && p <= s
    ensures |p| < |s| ==> !IsDigit(s[|p|])
  {
    if s == [] || !IsDigit(s[0]) then [] else [s[0]] + DigitPrefix(s[1..])
  }

  function SkipSpace(s: string): (t: string)
    ensures |t| <= |s| && t == s[|s| - |t|..]
    ensures t == [] || !IsSpace(t[0])
  {
    if s != [] && IsSpace(s[0]) then SkipSpace(s[1..]) else s
  }

  /** Why std::stoi throws: std::invalid_argument or std::out_of_range. */
  datatype StoiError = InvalidArgument | OutOfRange

  /**
   * std::stoi in base 10: skips leading white space, reads an optional sign and the longest
   * run of digits after it, and ignores the rest of the string. It throws when there is no
   * digit at all and when the value does not fit into an int.
   */
  function Stoi(s: string): Result<int, StoiError> {
    StoiSigned(SkipSpace(s))
  }

  /** std::stoi once leading white space is skipped: an optional sign, then digits. */
  function StoiSigned(t: string): Result<int, StoiError> {
    if |t| > 0 && (t[0] == '-' || t[0] == '+') then StoiMagnitude(t[0] == '-', t[1..])
    else StoiMagnitude(false, t)
  }

  /** The digits right after the sign, their value and the range check. */
  function StoiMagnitude(negative: bool, body: string): Result<int, StoiError> {
    var digits := DigitPrefix(body);
    if digits == [] then Failure(InvalidArgument)
    else
      var magnitude: int := DigitsValue(digits);
      var v := if negative then -magnitude else magnitude;
      if IsInt32(v) then Success(v) else Failure(OutOfRange)
  }

  lemma {:induction false} NatDigitsValue(n: nat)
    ensures DigitsValue(NatDigits(n)) == n
    decreases n
  {
    var s := NatDigits(n);
    if n >= 10 {
      NatDigitsValue(n / 10);
      assert s[..|s| - 1] == NatDigits(n / 10);
    }
  }

  lemma {:induction false} ZerosValue(k: nat, s: string)
    requires AllDigits(s)
    ensures AllDigits(Zeros(k) + s) && DigitsValue(Zeros(k) + s) == DigitsValue(s)
    decreases |s|, k
  {
    var z := Zeros(k) + s;
    assert AllDigits(z) by {
      forall i | 0 <= i < |z| ensures IsDigit(z[i]) {
        if i < k { assert z[i] == Zeros(k)[i]; } else { assert z[i] == s[i - k]; }
      }
    }
    if s == [] {
      assert z == Zeros(k);
      if k > 0 {
        ZerosValue(k - 1, []);
        assert z[..|z| - 1] == Zeros(k - 1) + [];
      }
    } else {
      ZerosValue(k, s[..|s| - 1]);
      assert z[..|z| - 1] == Zeros(k) + s[..|s| - 1];
    }
  }

  lemma {:induction false} DigitPrefixOfDigits(s: string)
    requires AllDigits(s)
    ensures DigitPrefix(s) == s
    decreases |s|
  {
    if s != [] {
      DigitPrefixOfDigits(s[1..]);
    }
  }

  /** The digits printed by "%0Nd" for a non-negative value, and their value. */
  lemma PaddedDigits(n: nat, width: nat)
    ensures AllDigits(ZeroPad(NatDigits(n), width))
    ensures DigitsValue(ZeroPad(NatDigits(n), width)) == n
  {
    var s := NatDigits(n);
    NatDigitsValue(n);
    if |s| < width {
      ZerosValue(width - |s|, s);
    }
  }

  /** std::stoi of a non-empty run of digits is its value, when that fits into an int. */
  lemma StoiDigits(d: string)
    requires AllDigits(d) && |d| >= 1 && DigitsValue(d) <= IntMax
    ensures Stoi(d) == Success(DigitsValue(d) as int)
  {
    assert !IsSpace(d[0]) && d[0] != '-' && d[0] != '+' by {
      assert IsDigit(d[0]);
    }
    SkipSpaceNone(d);
    assert StoiSigned(d) == StoiMagnitude(false, d);
    MagnitudeOfDigits(false, d);
  }

  /** std::stoi of '-' followed by digits is the negated value, when that fits into an int. */
  lemma StoiNegatedDigits(d: string)
    requires AllDigits(d) && |d| >= 1 && DigitsValue(d) <= -IntMin
    ensures Stoi("-" + d) == Success(-(DigitsValue(d) as int))
  {
    var s := "-" + d;
    SkipSpaceNone(s);
    assert s[0] == '-' && s[1..] == d;
    assert StoiSigned(s) == StoiMagnitude(true, d);
    MagnitudeOfDigits(true, d);
  }

  /** The magnitude read after the sign is the value of the digits. */
  lemma MagnitudeOfDigits(negative: bool, d: string)
    requires AllDigits(d) && |d| >= 1
    requires IsInt32(if negative then -(DigitsValue(d) as int) else DigitsValue(d))
    ensures StoiMagnitude(negative, d) == Success(if negative then -(DigitsValue(d) as int) else DigitsValue(d))
  {
    DigitPrefixOfDigits(d);
  }

  lemma SkipSpaceNone(s: string)
    requires s != [] && !IsSpace(s[0])
    ensures SkipSpace(s) == s
  {
  }

  /** std::stoi reads back what "%0Nd" printed, for every int and every width. */
  lemma StoiFormatPadded(i: int, width: nat)
    requires IsInt32(i)
    ensures Stoi(FormatPadded(i, width)) == Success(i)
  {
    if i < 0 {
      StoiFormatNegative(i, width);
    } else {
      StoiFormatNonNegative(i, width);
    }
  }

  lemma StoiFormatNegative(i: int, width: nat)
    requires IntMin <= i < 0
    ensures Stoi(FormatPadded(i, width)) == Success(i)
  {
    var w := if width > 0 then width - 1 else 0;
    var d := ZeroPad(NatDigits(-i), w);
    PaddedDigits(-i, w);
    StoiNegatedDigits(d);
  }

  lemma StoiFormatNonNegative(i: int, width: nat)
    requires 0 <= i <= IntMax
    ensures Stoi(FormatPadded(i, width)) == Success(i)
  {
    PaddedDigits(i, width);
    StoiDigits(ZeroPad(NatDigits(i), width));
  }

  /** std::stoi reads back what "%d" printed. */
  lemma StoiFormatInt(i: int)
    requires IsInt32(i)
    ensures Stoi(FormatInt(i)) == Success(i)
  {
    StoiFormatPadded(i, 0);
  }

  /** "%0Nd" of a non-negative value prints only digits, at least N of them. */
  lemma FormatPaddedShape(n: nat, width: nat)
    ensures AllDigits(FormatPadded(n, width)) && |FormatPadded(n, width)| >= width
  {
    PaddedDigits(n, width);
  }

  /** "%d" prints digits after an optional leading '-'. */
  lemma FormatIntShape(i: int)
    ensures forall k :: 0 <= k < |FormatInt(i)| ==> IsDigit(FormatInt(i)[k]) || (k == 0 && i < 0 && FormatInt(i)[k] == '-')
    ensures |FormatInt(i)| >= 1
  {
    var n: nat := if i < 0 then -i else i;
    PaddedDigits(n, 0);
  }

  /** Index of the first occurrence of c in s, or |s| when there is none. */
  function IndexOf(s: string, c: char): (k: nat)
    ensures k <= |s| && (k < |s| ==> s[k] == c)
    ensures forall j :: 0 <= j < k ==> s[j] != c
  {
    if s == [] then 0 else if s[0] == c then 0 else 1 + IndexOf(s[1..], c)
  }

  /** Index of the last occurrence of c in s (std::string::rfind), None for npos. */
  function RFind(s: string, c: char): (r: Option<nat>)
    ensures r.Some? ==> r.value < |s| && s[r.value] == c && forall j :: r.value < j < |s| ==> s[j] != c
    ensures r.None? ==> forall j :: 0 <= j < |s| ==> s[j] != c
  {
    if s == [] then None
    else if s[|s| - 1] == c then Some(|s| - 1)
    else RFind(s[..|s| - 1], c)
  }

  /**
   * The tokens that repeated std::getline(stream, token, delim) calls deliver: an empty
   * token between two adjacent delimiters, but none after a trailing delimiter.
   */
  function Split(s: string, delim: char): (tokens: seq<string>)
    ensures forall t :: t in tokens ==> delim !in t
    decreases |s|
  {
    if s == [] then []
    else
      var k := IndexOf(s, delim);
      if k == |s| then [s] else [s[..k]] + Split(s[k + 1..], delim)
  }

  /** Joining tokens free of the delimiter and splitting again gives the tokens back. */
  lemma {:induction false} SplitJoin(first: string, rest: seq<string>, delim: char)
    requires delim !in first && first != []
    requires forall t :: t in rest ==> delim !in t && t != []
    ensures Split(Join(first, rest, delim), delim) == [first] + rest
    decreases |rest|
  {
    var s := Join(first, rest, delim);
    if rest == [] {
      assert s == first;
      IndexOfAbsent(first, delim);
    } else {
      var tail := Join(rest[0], rest[1..], delim);
      assert s == first + ([delim] + tail);
      IndexOfAfter(first, [delim] + tail, delim);
      var k := IndexOf(s, delim);
      assert k == |first| && k < |s|;
      assert s[..k] == first;
      assert s[k + 1..] == tail;
      assert Split(s, delim) == [first] + Split(tail, delim);
      SplitJoin(rest[0], rest[1..], delim);
      assert [rest[0]] + rest[1..] == rest;
    }
  }

  /** The string first ++ delim ++ rest[0] ++ delim ++ ... */
  function Join(first: string, rest: seq<string>, delim: char): string
    decreases |rest|
  {
    if rest == [] then first else first + [delim] + Join(rest[0], rest[1..], delim)
  }

  lemma IndexOfAbsent(s: string, c: char)
    requires c !in s
    ensures IndexOf(s, c) == |s|
  {
  }

  lemma {:induction false} IndexOfAfter(a: string, b: string, c: char)
    requires c !in a && b != [] && b[0] == c
    ensures IndexOf(a + b, c) == |a|
    decreases |a|
  {
    if a != [] {
      assert (a + b)[1..] == a[1..] + b;
      IndexOfAfter(a[1..], b, c);
    }
  }

  /** pattern occurs in s starting at index i. */
  predicate OccursAt(s: string, pattern: string, i: nat) {
    i + |pattern| <= |s| && s[i..i + |pattern|] == pattern
  }

  /** Python's "pattern in s" for strings, as a left-to-right scan. */
  predicate Contains(s: string, pattern: string)
    decreases |s|
  {
    if |s| < |pattern| then false else s[..|pattern|] == pattern || (s != [] && Contains(s[1..], pattern))
  }

  /** The scan finds the pattern exactly when it occurs somewhere in s. */
  lemma {:induction false} ContainsIffOccurs(s: string, pattern: string)
    ensures Contains(s, pattern) <==> exists i: nat :: OccursAt(s, pattern, i)
    decreases |s|
  {
    if |s| >= |pattern| {
      if s[..|pattern|] == pattern {
        assert OccursAt(s, pattern, 0);
      } else if s != [] {
        ContainsIffOccurs(s[1..], pattern);
        if Contains(s[1..], pattern) {
          var i: nat :| OccursAt(s[1..], pattern, i);
          assert s[1..][i..i + |pattern|] == s[i + 1..i + 1 + |pattern|];
          assert OccursAt(s, pattern, i + 1);
        }
        if exists i: nat :: OccursAt(s, pattern, i) {
          var i: nat :| OccursAt(s, pattern, i);
          assert i > 0;
          assert s[1..][i - 1..i - 1 + |pattern|] == s[i..i + |pattern|];
          assert OccursAt(s[1..], pattern, i - 1);
        }
      }
    }
  }
}
