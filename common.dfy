/**
 * Value helpers shared by the backend and client models: optional values,
 * the character classes used by the Python and JavaScript code, Python's
 * `str.strip()`, and decimal formatting of numbers.
 */
module Common {

  datatype Option<T> = None | Some(value: T)

  /** What a request handler returns, or the `HTTPException` it raises (status code and detail). */
  datatype Response<T> = Ok(value: T) | HttpError(status: int, detail: string)

  /** Python's `str.isspace()` set; a `re` pattern's `\s` over `str` matches the same characters. */
  predicate IsSpace(c: char)
  {
    c == ' ' || ('\t' <= c <= '\r') || ('\U{1C}' <= c <= '\U{1F}') || c == '\U{85}' || c == '\U{A0}'
    || c == '\U{1680}' || ('\U{2000}' <= c <= '\U{200A}') || c == '\U{2028}' || c == '\U{2029}'
    || c == '\U{202F}' || c == '\U{205F}' || c == '\U{3000}'
  }

  predicate AllSpace(s: string)
  {
    forall i :: 0 <= i < |s| ==> IsSpace(s[i])
  }

  predicate IsDigit(c: char)
  {
    '0' <= c <= '9'
  }

  predicate AllDigits(s: string)
  {
    forall i :: 0 <= i < |s| ==> IsDigit(s[i])
  }

  predicate IsAsciiUpper(c: char)
  {
    'A' <= c <= 'Z'
  }

  predicate IsAsciiLetter(c: char)
  {
    'A' <= c <= 'Z' || 'a' <= c <= 'z'
  }

  /** A precomposed Hangul syllable, the regex range `가-힣`. */
  predicate IsHangul(c: char)
  {
    '가' <= c <= '힣'
  }

  function DigitValue(c: char): (d: nat)
    requires IsDigit(c)
    ensures d < 10
  {
    (c as int) - ('0' as int)
  }

  /** The value of a run of decimal digits, as Python's `int()` reads it. */
  function DigitsValue(s: string): nat
    requires AllDigits(s)
    decreases |s|
  {
    if s == [] then 0 else DigitsValue(s[..|s| - 1]) * 10 + DigitValue(s[|s| - 1])
  }

  function DigitChar(d: nat): (c: char)
    requires d < 10
    ensures IsDigit(c) && DigitValue(c) == d
  {
    (('0' as int) + d) as char
  }

  /** `"%02d" % n` for a value below one hundred. */
  function Pad2(n: nat): (s: string)
    requires n < 100
    ensures |s| == 2 && AllDigits(s) && DigitsValue(s) == n
  {
    var s := [DigitChar(n / 10), DigitChar(n % 10)];
    assert s[..1] == [DigitChar(n / 10)] && [DigitChar(n / 10)][..0] == [];
    assert DigitsValue(s[..1]) == n / 10;
    s
  }

  /** `f"{n:03d}"` for a value below one thousand. */
  function Pad3(n: nat): (s: string)
    requires n < 1000
    ensures |s| == 3 && AllDigits(s) && DigitsValue(s) == n
  {
    var s := [DigitChar(n / 100)] + Pad2(n % 100);
    assert s[..2] == [DigitChar(n / 100), DigitChar(n % 100 / 10)];
    assert s[..2][..1] == [DigitChar(n / 100)] && [DigitChar(n / 100)][..0] == [];
    assert DigitsValue([DigitChar(n / 100)]) == n / 100;
    assert DigitsValue(s[..2]) == (n / 100) * 10 + n % 100 / 10;
    s
  }

  /** `str(n)` for a natural number. */
  function NatToString(n: nat): (s: string)
    ensures |s| > 0 && AllDigits(s) && DigitsValue(s) == n
  {
    if n < 10 then [DigitChar(n)]
    else
      var s := NatToString(n / 10) + [DigitChar(n % 10)];
      assert s[..|s| - 1] == NatToString(n / 10);
      s
  }

  /** `str(i)` for any integer. */
  function IntToString(i: int): string
  {
    if i < 0 then "-" + NatToString(-i) else NatToString(i)
  }

  /** Number of whitespace characters at the front of `s`. */
  function LeadingSpace(s: string): (n: nat)
    ensures n <= |s|
    ensures AllSpace(s[..n])
    ensures n < |s| ==> !IsSpace(s[n])
  {
    if s == [] || !IsSpace(s[0]) then 0
    else
      var k := LeadingSpace(s[1..]);
      assert s[1..][..k] == s[1..k + 1];
      1 + k
  }

  /** Number of whitespace characters at the back of `s`. */
  function TrailingSpace(s: string): (n: nat)
    ensures n <= |s|
    ensures AllSpace(s[|s| - n..])
    ensures n < |s| ==> !IsSpace(s[|s| - n - 1])
  {
    if s == [] || !IsSpace(s[|s| - 1]) then 0
    else
      var k := TrailingSpace(s[..|s| - 1]);
      assert s[..|s| - 1][|s| - 1 - k..] == s[|s| - 1 - k..|s| - 1];
      1 + k
  }

  /** Python's `str.strip()`: whitespace cut off at both ends. */
  function Strip(s: string): (r: string)
    ensures |r| <= |s|
  {
    var a := LeadingSpace(s);
    s[a..|s| - TrailingSpace(s[a..])]
  }

  /**
   * `r` is the slice of `s` from `a` between a whitespace-only prefix and
   * suffix, and neither starts nor ends with whitespace.
   */
  predicate StrippedFrom(s: string, r: string, a: nat)
  {
    a + |r| <= |s| && r == s[a..a + |r|]
    && AllSpace(s[..a]) && AllSpace(s[a + |r|..])
    && (r != [] ==> !IsSpace(r[0]) && !IsSpace(r[|r| - 1]))
  }

  /** What `Strip` keeps: the stripped slice from the end of the leading whitespace. */
  lemma StripKeeps(s: string)
    ensures StrippedFrom(s, Strip(s), LeadingSpace(s))
  {
    var a := LeadingSpace(s);
    var rest := s[a..];
    var b := TrailingSpace(rest);
    StripSlice(s, a, b, rest, Strip(s));
  }

  /** `Strip` is empty exactly for an all-whitespace string. */
  lemma StripEmptyMeaning(s: string)
    ensures Strip(s) == [] <==> AllSpace(s)
  {
    var a := LeadingSpace(s);
    var b := TrailingSpace(s[a..]);
    StripEmpty(s, a, b);
    EmptyBetween(Strip(s), a, b, |s|, AllSpace(s));
  }

  /** A slice from `a` to `n - b` is empty exactly when its two ends meet. */
  lemma EmptyBetween(r: string, a: nat, b: nat, n: nat, meet: bool)
    requires a <= n - b && |r| == n - b - a && (a == n - b <==> meet)
    ensures r == [] <==> meet
  {
  }

  /** The slice between a whitespace-only front of length `a` and back of length `b`. */
  lemma StripSlice(s: string, a: nat, b: nat, rest: string, r: string)
    requires a <= |s| && rest == s[a..] && b <= |rest| && r == s[a..|s| - b]
    requires AllSpace(s[..a]) && AllSpace(rest[|rest| - b..])
    requires a < |s| ==> !IsSpace(s[a])
    requires b < |rest| ==> !IsSpace(rest[|rest| - b - 1])
    ensures StrippedFrom(s, r, a)
  {
    assert s[a + |r|..] == rest[|rest| - b..];
    if r != [] {
      assert r[0] == s[a] && r[|r| - 1] == rest[|rest| - b - 1];
    }
  }

  /** The kept slice is empty exactly when the two whitespace runs cover the string. */
  lemma StripEmpty(s: string, a: nat, b: nat)
    requires a == LeadingSpace(s) && b == TrailingSpace(s[a..])
    ensures a <= |s| - b
    ensures a == |s| - b <==> AllSpace(s)
  {
    var rest := s[a..];
    if a == |s| - b {
      assert rest == rest[|rest| - b..];
      AllSpaceSplit(s, a);
    } else {
      assert s[a] == rest[0];
    }
  }

  /** A string whose two halves around `a` are all whitespace is all whitespace. */
  lemma AllSpaceSplit(s: string, a: nat)
    requires a <= |s|
    requires AllSpace(s[..a]) && AllSpace(s[a..])
    ensures AllSpace(s)
  {
    forall i | 0 <= i < |s| ensures IsSpace(s[i]) {
      if i < a { assert s[..a][i] == s[i]; } else { assert s[a..][i - a] == s[i]; }
    }
  }

  /** Stripping a string that has no whitespace at either end changes nothing. */
  lemma StripUnchanged(s: string)
    requires s != [] ==> !IsSpace(s[0]) && !IsSpace(s[|s| - 1])
    ensures Strip(s) == s
  {
    if s != [] {
      assert LeadingSpace(s) == 0;
      assert TrailingSpace(s) == 0;
    }
  }

  /** `str.strip()` is idempotent. */
  lemma StripIdempotent(s: string)
    ensures Strip(Strip(s)) == Strip(s)
  {
    StripKeeps(s);
    StripUnchanged(Strip(s));
  }

  /**
   * The end of the longest run of characters satisfying `p` that starts at
   * `i`: what a greedy `[...]*` reads from there.
   */
  function Span(s: string, i: nat, p: char -> bool): (j: nat)
    requires i <= |s|
    ensures i <= j <= |s|
    ensures forall k :: i <= k < j ==> p(s[k])
    ensures j < |s| ==> !p(s[j])
    decreases |s| - i
  {
    if i == |s| || !p(s[i]) then i else Span(s, i + 1, p)
  }

  predicate StartsWith(s: string, prefix: string)
  {
    |prefix| <= |s| && s[..|prefix|] == prefix
  }

  /** `t in s` for two strings (substring test). */
  predicate Contains(s: string, t: string)
    decreases |s|
  {
    StartsWith(s, t) || (s != [] && Contains(s[1..], t))
  }

  /** A string that starts with `t` at position `i` contains `t`. */
  lemma {:induction false} ContainsAt(s: string, t: string, i: nat)
    requires i <= |s| && StartsWith(s[i..], t)
    ensures Contains(s, t)
    decreases i
  {
    if i > 0 {
      assert s[1..][i - 1..] == s[i..];
      ContainsAt(s[1..], t, i - 1);
    }
  }

  /** A string shorter than `t`, or without `t`'s first character, does not contain `t`. */
  lemma {:induction false} Lacks(s: string, t: string)
    requires |t| > |s| || (|t| > 0 && t[0] !in s)
    ensures !Contains(s, t)
    decreases |s|
  {
    if |t| <= |s| {
      assert s[..|t|][0] == s[0];
    }
    if s != [] {
      assert forall c :: c in s[1..] ==> c in s;
      Lacks(s[1..], t);
    }
  }

  /** ASCII lower-casing of one character. */
  function LowerChar(c: char): char
  {
    if 'A' <= c <= 'Z' then ((c as int) + 32) as char else c
  }

  function Lower(s: string): (r: string)
    ensures |r| == |s| && forall i :: 0 <= i < |s| ==> r[i] == LowerChar(s[i])
  {
    seq(|s|, i requires 0 <= i < |s| => LowerChar(s[i]))
  }

  /** Python's truth value of an optional string: present and non-empty. */
  predicate Truthy(o: Option<string>)
  {
    o.Some? && o.value != ""
  }

  /** `sep.join(parts)`. */
  function Join(parts: seq<string>, sep: string): string
  {
    if parts == [] then "" else if |parts| == 1 then parts[0] else parts[0] + sep + Join(parts[1..], sep)
  }
}
