/**
 * The string operations of Python that the backend relies on:
 * `str.strip()`, the substring test `sub in s`, the code-point order of
 * `<=` on `str`, and `str()` of an integer.
 */
module Text {

  /** Characters for which Python's `str.isspace()` holds. */
  predicate IsSpace(c: char) {
    || c == ' '
    || ('\t' <= c <= '\r')
    || ('\U{1C}' <= c <= '\U{1F}')
    || c == '\U{85}'
    || c == '\U{A0}'
    || c == '\U{1680}'
    || ('\U{2000}' <= c <= '\U{200A}')
    || c == '\U{2028}'
    || c == '\U{2029}'
    || c == '\U{202F}'
    || c == '\U{205F}'
    || c == '\U{3000}'
  }

  /** Every character of `s` is whitespace. */
  predicate AllSpace(s: string) {
    forall k :: 0 <= k < |s| ==> IsSpace(s[k])
  }

  /** The number of whitespace characters at the front of `s`. */
  function LeadingSpace(s: string): (n: nat)
    ensures n <= |s|
    ensures AllSpace(s[..n])
    ensures n < |s| ==> !IsSpace(s[n])
  {
    if s == [] || !IsSpace(s[0]) then 0 else 1 + LeadingSpace(s[1..])
  }

  /** The number of whitespace characters at the back of `s`. */
  function TrailingSpace(s: string): (n: nat)
    ensures n <= |s|
    ensures AllSpace(s[|s| - n..])
    ensures n < |s| ==> !IsSpace(s[|s| - 1 - n])
  {
    if s == [] || !IsSpace(s[|s| - 1]) then 0 else 1 + TrailingSpace(s[..|s| - 1])
  }

  /** `r` is `s[i..i + |r|]`, and everything of `s` around it is whitespace. */
  predicate TrimmedAt(s: string, r: string, i: int) {
    && 0 <= i <= i + |r| <= |s|
    && s[i..i + |r|] == r
    && AllSpace(s[..i])
    && AllSpace(s[i + |r|..])
  }

  /**
   * Python's `s.strip()`: `s` with its leading and trailing whitespace removed.
   * The result is the slice of `s` that neither starts nor ends with whitespace
   * and has only whitespace around it.
   */
  function Strip(s: string): (r: string)
    ensures exists i :: TrimmedAt(s, r, i)
    ensures r != [] ==> !IsSpace(r[0]) && !IsSpace(r[|r| - 1])
  {
    var i := LeadingSpace(s);
    var t := s[i..];
    var r := t[..|t| - TrailingSpace(t)];
    TrimmedBetween(s, i, TrailingSpace(t));
    r
  }

  /** Cutting `i` whitespace characters from the front and then `n` from the back trims `s`. */
  lemma TrimmedBetween(s: string, i: nat, n: nat)
    requires i <= |s| && AllSpace(s[..i]) && (i < |s| ==> !IsSpace(s[i]))
    requires n <= |s| - i && AllSpace(s[i..][|s| - i - n..])
    requires n < |s| - i ==> !IsSpace(s[i..][|s| - i - 1 - n])
    ensures var r := s[i..][..|s| - i - n];
      && TrimmedAt(s, r, i)
      && (r != [] ==> !IsSpace(r[0]) && !IsSpace(r[|r| - 1]))
  {
    var t := s[i..];
    var r := t[..|t| - n];
    assert s[i..i + |r|] == r;
    assert s[i + |r|..] == t[|t| - n..];
    if r != [] {
      assert r[0] == s[i];
      assert r[|r| - 1] == t[|t| - 1 - n];
    }
  }

  /** `sub` occurs in `s` at index `i`. */
  predicate OccursAt(sub: string, s: string, i: int) {
    0 <= i && i + |sub| <= |s| && s[i..i + |sub|] == sub
  }

  /** Python's `sub in s` for two strings. */
  function Contains(s: string, sub: string): (b: bool)
    ensures b <==> exists i :: OccursAt(sub, s, i)
    decreases |s|
  {
    if |sub| > |s| then false
    else if s[..|sub|] == sub then
      assert OccursAt(sub, s, 0);
      true
    else
      var b := Contains(s[1..], sub);
      ShiftOccurrence(sub, s);
      b
  }

  /** When `sub` is not a prefix of `s`, its occurrences in `s` are those in `s[1..]`, shifted by one. */
  lemma ShiftOccurrence(sub: string, s: string)
    requires |sub| <= |s| && s[..|sub|] != sub
    ensures (exists i :: OccursAt(sub, s, i)) <==> (exists i :: OccursAt(sub, s[1..], i))
  {
    if i :| OccursAt(sub, s, i) {
      assert i != 0;
      assert s[1..][i - 1..i - 1 + |sub|] == s[i..i + |sub|];
      assert OccursAt(sub, s[1..], i - 1);
    }
    if i :| OccursAt(sub, s[1..], i) {
      assert s[1..][i..i + |sub|] == s[i + 1..i + 1 + |sub|];
      assert OccursAt(sub, s, i + 1);
    }
  }

  /** An occurrence of an occurrence is an occurrence. */
  lemma OccursAtTransitive(a: string, b: string, c: string, i: int, j: int)
    requires OccursAt(a, b, i) && OccursAt(b, c, j)
    ensures OccursAt(a, c, i + j)
  {
    forall k | 0 <= k < |a|
      ensures c[i + j + k] == a[k]
    {
      assert c[j..j + |b|][i + k] == b[i + k];
      assert b[i..i + |a|][k] == a[k];
    }
    assert c[i + j..i + j + |a|] == a;
  }

  /** Python's `any(sub in s for sub in subs)`. */
  function ContainsAny(s: string, subs: seq<string>): (b: bool)
    ensures b <==> exists k :: 0 <= k < |subs| && Contains(s, subs[k])
  {
    if subs == [] then false
    else Contains(s, subs[0]) || ContainsAny(s, subs[1..])
  }

  /** `a` and `b` agree before index `k`, where `a` has the smaller code point. */
  predicate SmallerAt(a: string, b: string, k: int) {
    0 <= k < |a| && k < |b| && a[..k] == b[..k] && a[k] < b[k]
  }

  /** Python's `a <= b` on `str`, comparing code point by code point. */
  function LexLe(a: string, b: string): bool {
    if a == [] then true
    else if b == [] then false
    else if a[0] < b[0] then true
    else if a[0] == b[0] then LexLe(a[1..], b[1..])
    else false
  }

  /**
   * `LexLe(a, b)` holds exactly when `a` is a prefix of `b`, or at the first
   * index where they differ `a` has the smaller code point.
   */
  lemma {:induction false} LexLeMeaning(a: string, b: string)
    ensures LexLe(a, b) <==> a <= b || exists k :: SmallerAt(a, b, k)
  {
    if a == [] {
    } else if b == [] {
    } else if a[0] < b[0] {
      assert SmallerAt(a, b, 0);
    } else if a[0] == b[0] {
      LexLeMeaning(a[1..], b[1..]);
      SameFirstChar(a, b);
    } else {
      FirstCharDecides(a, b);
    }
  }

  /** When the first characters differ, neither string is a prefix of the other and only index 0 can decide. */
  lemma FirstCharDecides(a: string, b: string)
    requires a != [] && b != [] && a[0] != b[0]
    ensures !(a <= b)
    ensures forall k :: 0 < k ==> !SmallerAt(a, b, k)
  {
    if |a| <= |b| {
      assert b[..|a|][0] != a[0];
    }
    forall k | 0 < k < |a| && k < |b|
      ensures a[..k] != b[..k]
    {
      assert a[..k][0] != b[..k][0];
    }
  }

  /** With equal first characters, the order is that of the rests. */
  lemma SameFirstChar(a: string, b: string)
    requires a != [] && b != [] && a[0] == b[0]
    ensures a <= b <==> a[1..] <= b[1..]
    ensures (exists k :: SmallerAt(a, b, k)) <==> (exists k :: SmallerAt(a[1..], b[1..], k))
  {
    if k :| SmallerAt(a, b, k) {
      assert k != 0;
      assert a[1..][..k - 1] == a[..k][1..] && b[1..][..k - 1] == b[..k][1..];
      assert SmallerAt(a[1..], b[1..], k - 1);
    }
    if k :| SmallerAt(a[1..], b[1..], k) {
      assert a[..k + 1] == [a[0]] + a[1..][..k] && b[..k + 1] == [b[0]] + b[1..][..k];
      assert SmallerAt(a, b, k + 1);
    }
    assert a == [a[0]] + a[1..] && b == [b[0]] + b[1..];
    if |a| <= |b| {
      assert b[..|a|] == [b[0]] + b[1..][..|a| - 1];
    }
  }

  lemma {:induction false} LexLeReflexive(a: string)
    ensures LexLe(a, a)
  {
    if a != [] {
      LexLeReflexive(a[1..]);
    }
  }

  lemma {:induction false} LexLeTotal(a: string, b: string)
    ensures LexLe(a, b) || LexLe(b, a)
  {
    if a != [] && b != [] && a[0] == b[0] {
      LexLeTotal(a[1..], b[1..]);
    }
  }

  lemma {:induction false} LexLeTransitive(a: string, b: string, c: string)
    requires LexLe(a, b) && LexLe(b, c)
    ensures LexLe(a, c)
  {
    if a != [] && a[0] == b[0] && b[0] == c[0] {
      LexLeTransitive(a[1..], b[1..], c[1..]);
    }
  }

  /** The decimal digit character for `d`. */
  function DigitChar(d: nat): (c: char)
    requires d < 10
    ensures '0' <= c <= '9' && c as int - '0' as int == d
  {
    ('0' as int + d) as char
  }

  /** Every character of `s` is a decimal digit. */
  predicate AllDigits(s: string) {
    forall k :: 0 <= k < |s| ==> '0' <= s[k] <= '9'
  }

  /** Python's `str(n)` for a natural number: its decimal digits, without leading zeros. */
  function NatToDecimal(n: nat): (s: string)
    ensures s != [] && AllDigits(s)
    ensures n == 0 ==> s == "0"
    ensures n > 0 ==> s[0] != '0'
  {
    if n < 10 then [DigitChar(n)] else NatToDecimal(n / 10) + [DigitChar(n % 10)]
  }

  /** The number a string of decimal digits denotes. */
  function ParseDecimal(s: string): nat
    requires AllDigits(s)
  {
    if s == [] then 0 else ParseDecimal(s[..|s| - 1]) * 10 + (s[|s| - 1] as int - '0' as int)
  }

  lemma {:induction false} DecimalRoundTrip(n: nat)
    ensures ParseDecimal(NatToDecimal(n)) == n
  {
    if n >= 10 {
      var s := NatToDecimal(n);
      assert s[..|s| - 1] == NatToDecimal(n / 10);
      DecimalRoundTrip(n / 10);
    }
  }

  /**
   * Python's `str(n)` for an integer: a minus sign before the digits of a
   * negative number; the digits read back as the number and have no
   * leading zero, so zero is written "0".
   */
  function IntToDecimal(n: int): (s: string)
    ensures s != []
    ensures n < 0 ==> |s| > 1 && s[0] == '-' && AllDigits(s[1..]) && ParseDecimal(s[1..]) == -n && s[1] != '0'
    ensures n >= 0 ==> AllDigits(s) && ParseDecimal(s) == n
    ensures n == 0 ==> s == "0"
    ensures n > 0 ==> s[0] != '0'
  {
    if n < 0 then
      DecimalRoundTrip(-n);
      assert ("-" + NatToDecimal(-n))[1..] == NatToDecimal(-n);
      "-" + NatToDecimal(-n)
    else
      DecimalRoundTrip(n);
      NatToDecimal(n)
  }

  /** Distinct integers print as distinct strings. */
  lemma IntToDecimalInjective(a: int, b: int)
    requires IntToDecimal(a) == IntToDecimal(b)
    ensures a == b
  {
    var s := IntToDecimal(a);
    assert a < 0 <==> s[0] == '-';
    assert b < 0 <==> s[0] == '-';
  }
}
