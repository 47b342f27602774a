/** Shared vocabulary of the authentication backend and its web client:
    optional values, the clock constants the routes use (all times are
    milliseconds since the epoch, passed in explicitly), JavaScript's notion
    of white space and the few string operations the source relies on. */
module Common {

  datatype Option<+T> = None | Some(value: T)

  /** The server's configuration as the routes read it: whether the mail
      account credentials are set, whether `NODE_ENV` (lower-cased) is
      `production`, and whether the token signing secret is set. */
  datatype Env = Env(gmailConfigured: bool, production: bool, jwtSecretSet: bool)

  const SECOND_MS: int := 1000
  const MINUTE_MS: int := 60 * SECOND_MS
  /** Lifetime of every one-time code (verification, MFA, password reset). */
  const CODE_TTL_MS: int := 10 * MINUTE_MS
  /** Length of the lock window after the third failed password. */
  const LOCK_MS: int := 15 * MINUTE_MS
  /** Lifetime of a session token and default lifetime of a revocation entry. */
  const DAY_MS: int := 24 * 60 * MINUTE_MS
  /** Failed passwords that engage the lock. */
  const MAX_FAILED_ATTEMPTS: nat := 3

  /** `Math.ceil(a / b)` for a positive divisor. */
  function CeilDiv(a: int, b: int): (r: int)
    requires b > 0
    ensures (r - 1) * b < a <= r * b
  {
    -((-a) / b)
  }

  function Max(a: int, b: int): (r: int)
    ensures r >= a && r >= b && (r == a || r == b)
  {
    if a >= b then a else b
  }

  /** The characters JavaScript's `String.prototype.trim` removes and the regular
      expression class `\s` matches (ECMAScript WhiteSpace and LineTerminator). */
  predicate IsJsSpace(c: char)
  {
    || c == ' ' || c == '\t' || c == '\n' || c == '\r' || c == '\U{000B}' || c == '\U{000C}'
    || c == '\U{00A0}' || c == '\U{1680}' || ('\U{2000}' <= c <= '\U{200A}')
    || c == '\U{2028}' || c == '\U{2029}' || c == '\U{202F}' || c == '\U{205F}'
    || c == '\U{3000}' || c == '\U{FEFF}'
  }

  predicate NoSpace(s: string)
  {
    forall i :: 0 <= i < |s| ==> !IsJsSpace(s[i])
  }

  function TrimStart(s: string): (r: string)
    ensures |r| <= |s| && r == s[|s| - |r|..]
    ensures r == [] || !IsJsSpace(r[0])
    ensures forall i :: 0 <= i < |s| - |r| ==> IsJsSpace(s[i])
  {
    if s != [] && IsJsSpace(s[0]) then
      var r := TrimStart(s[1..]);
      assert forall i :: 1 <= i < |s| ==> s[1..][i - 1] == s[i];
      r
    else s
  }

  function TrimEnd(s: string): (r: string)
    ensures |r| <= |s| && r == s[..|r|]
    ensures r == [] || !IsJsSpace(r[|r| - 1])
    ensures forall i :: |r| <= i < |s| ==> IsJsSpace(s[i])
  {
    if s != [] && IsJsSpace(s[|s| - 1]) then
      var r := TrimEnd(s[..|s| - 1]);
      assert forall i :: 0 <= i < |s| - 1 ==> s[..|s| - 1][i] == s[i];
      r
    else s
  }

  /** `String(s).trim()`: the longest slice of `s` that neither starts nor ends
      with white space, everything cut away being white space. */
  function Trim(s: string): (r: string)
    ensures |r| <= |s|
    ensures r == [] || (!IsJsSpace(r[0]) && !IsJsSpace(r[|r| - 1]))
  {
    TrimEnd(TrimStart(s))
  }

  /** A string that neither starts nor ends with white space trims to itself. */
  lemma TrimKeepsUnpadded(s: string)
    requires s == [] || (!IsJsSpace(s[0]) && !IsJsSpace(s[|s| - 1]))
    ensures Trim(s) == s
  {
  }

  /** What `trim()` keeps is a slice of `s` with only white space cut away
      on either side. */
  lemma TrimIsSlice(s: string)
    ensures exists i :: TrimmedAt(s, Trim(s), i)
  {
    TrimSliceAt(s);
  }

  /** The slice `Trim` keeps starts where `TrimStart` stopped. */
  lemma TrimSliceAt(s: string)
    ensures TrimmedAt(s, Trim(s), |s| - |TrimStart(s)|)
  {
    var a := TrimStart(s);
    TrimSlice(s, a, TrimEnd(a));
  }

  /** Trimming the start, then the end, leaves a slice with only white space around it. */
  lemma TrimSlice(s: string, a: string, r: string)
    requires |a| <= |s| && a == s[|s| - |a|..]
    requires forall k :: 0 <= k < |s| - |a| ==> IsJsSpace(s[k])
    requires |r| <= |a| && r == a[..|r|]
    requires forall k :: |r| <= k < |a| ==> IsJsSpace(a[k])
    ensures TrimmedAt(s, r, |s| - |a|)
  {
    var i := |s| - |a|;
    assert r == s[i..i + |r|] by {
      assert a == s[i..] && r == a[..|r|];
    }
    forall k | i + |r| <= k < |s|
      ensures IsJsSpace(s[k])
    {
      assert s[k] == a[k - i];
    }
  }

  /** `r` is the slice of `s` starting at `i`, and only white space lies around it. */
  predicate TrimmedAt(s: string, r: string, i: int)
  {
    && 0 <= i <= |s| - |r| && r == s[i..i + |r|]
    && (forall k :: 0 <= k < i ==> IsJsSpace(s[k]))
    && (forall k :: i + |r| <= k < |s| ==> IsJsSpace(s[k]))
  }

  /** Two slices with only white space around them, neither starting nor
      ending with white space, are the same slice. */
  lemma TrimmedAtUnique(s: string, r: string, j: int, c: string, i: int)
    requires TrimmedAt(s, r, j) && (r == [] || (!IsJsSpace(r[0]) && !IsJsSpace(r[|r| - 1])))
    requires TrimmedAt(s, c, i) && c != [] && !IsJsSpace(c[0]) && !IsJsSpace(c[|c| - 1])
    ensures r == c
  {
    var e, f := i + |c|, j + |r|;
    // The ends of `c` are not white space, so they lie within `r`'s slice.
    assert !IsJsSpace(s[i]) && !IsJsSpace(s[e - 1]) by {
      assert c[0] == s[i] && c[|c| - 1] == s[e - 1];
    }
    assert j <= i < f && e <= f;
    // Likewise the ends of `r` lie within `c`'s slice.
    assert !IsJsSpace(s[j]) && !IsJsSpace(s[f - 1]) by {
      assert r[0] == s[j] && r[|r| - 1] == s[f - 1];
    }
  }

  /** Every character of `s` is white space. */
  predicate AllSpace(s: string)
  {
    forall k :: 0 <= k < |s| ==> IsJsSpace(s[k])
  }

  /** A string of white space trims to nothing. */
  lemma AllSpaceTrimsEmpty(x: string)
    requires AllSpace(x)
    ensures Trim(x) == []
  {
    var r := Trim(x);
    TrimIsSlice(x);
    var j :| TrimmedAt(x, r, j);
    SliceOfSpace(x, r, j);
  }

  lemma SliceOfSpace(x: string, r: string, j: int)
    requires AllSpace(x) && 0 <= j <= |x| - |r| && r == x[j..j + |r|]
    ensures AllSpace(r)
  {
    forall k | 0 <= k < |r|
      ensures IsJsSpace(r[k])
    {
      assert r[k] == x[j + k];
    }
  }

  /** A string that agrees with `x` character by character from `a` on is that slice of `x`. */
  lemma SliceAt(x: string, r: string, a: int)
    requires 0 <= a <= |x| - |r|
    requires forall k :: 0 <= k < |r| ==> x[a + k] == r[k]
    ensures r == x[a..a + |r|]
  {
  }

  /** White space added around a string does not change what it trims to. */
  lemma TrimIgnoresPadding(p: string, s: string, q: string)
    requires AllSpace(p) && AllSpace(q)
    ensures Trim(p + s + q) == Trim(s)
  {
    var x := p + s + q;
    TrimIsSlice(s);
    var i :| TrimmedAt(s, Trim(s), i);
    PaddedTrim(p, s, q, x, Trim(s), i);
  }

  lemma PaddedTrim(p: string, s: string, q: string, x: string, r: string, i: int)
    requires AllSpace(p) && AllSpace(q) && TrimmedAt(s, r, i) && x == p + s + q
    requires r == [] || (!IsJsSpace(r[0]) && !IsJsSpace(r[|r| - 1]))
    ensures Trim(x) == r
  {
    PaddedSlice(p, s, q, r, i);
    if r == [] {
      AllSpaceTrimsEmpty(x);
    } else {
      TrimOfPadded(x, r, |p| + i);
    }
  }

  /** A string made of `c` with only white space around it trims to `c` when
      `c` has no white space at either end. */
  lemma TrimOfPadded(s: string, c: string, i: int)
    requires TrimmedAt(s, c, i) && c != [] && !IsJsSpace(c[0]) && !IsJsSpace(c[|c| - 1])
    ensures Trim(s) == c
  {
    TrimSliceAt(s);
    TrimmedAtUnique(s, Trim(s), |s| - |TrimStart(s)|, c, i);
  }

  /** A slice with only white space around it keeps that property when more
      white space is added on both sides. */
  lemma PaddedSlice(p: string, s: string, q: string, r: string, i: int)
    requires AllSpace(p) && AllSpace(q) && TrimmedAt(s, r, i)
    ensures TrimmedAt(p + s + q, r, |p| + i)
    ensures r == [] ==> AllSpace(p + s + q)
  {
    var x := p + s + q;
    var e := |p| + i + |r|;
    forall k | 0 <= k < |r|
      ensures x[|p| + i + k] == r[k]
    {
      assert r[k] == s[i + k];
    }
    SliceAt(x, r, |p| + i);
    forall k | 0 <= k < |x| && (k < |p| + i || e <= k)
      ensures IsJsSpace(x[k])
    {
      if k < |p| {
        assert x[k] == p[k];
      } else if k < |p| + |s| {
        assert x[k] == s[k - |p|];
      } else {
        assert x[k] == q[k - |p| - |s|];
      }
    }
  }

  predicate IsDigit(c: char)
  {
    '0' <= c <= '9'
  }

  predicate AllDigits(s: string)
  {
    forall i :: 0 <= i < |s| ==> IsDigit(s[i])
  }

  /** ASCII upper case to lower case; every other character is kept. */
  function LowerChar(c: char): (r: char)
    ensures 'A' <= c <= 'Z' ==> 'a' <= r <= 'z'
    ensures !('A' <= c <= 'Z') ==> r == c
  {
    if 'A' <= c <= 'Z' then (c as int + 32) as char else c
  }

  function ToLower(s: string): (r: string)
    ensures |r| == |s|
    ensures forall i :: 0 <= i < |s| ==> r[i] == LowerChar(s[i])
  {
    seq(|s|, i requires 0 <= i < |s| => LowerChar(s[i]))
  }

  /** `s.startsWith(p)`. */
  predicate StartsWith(s: string, p: string)
  {
    |p| <= |s| && s[..|p|] == p
  }

  /** `s.includes(p)`: `p` occurs as a contiguous block of `s`. */
  predicate Contains(s: string, p: string)
  {
    exists i | 0 <= i <= |s| - |p| :: OccursAt(s, p, i)
  }

  predicate OccursAt(s: string, p: string, i: int)
  {
    0 <= i <= |s| - |p| && s[i..i + |p|] == p
  }

  /** JavaScript truthiness of an optional string: present and not empty. */
  predicate Truthy(s: Option<string>)
  {
    s.Some? && s.value != ""
  }

  /** `a || b` on optional strings. */
  function OrElse(a: Option<string>, b: Option<string>): (r: Option<string>)
    ensures Truthy(a) ==> r == a
    ensures !Truthy(a) ==> r == b
  {
    if Truthy(a) then a else b
  }

  /** Six decimal digits, the range `Math.floor(100000 + Math.random() * 900000)` yields. */
  type SixDigit = n: int | 100000 <= n <= 999999 witness 100000

  function DigitChar(d: int): (c: char)
    requires 0 <= d < 10
    ensures IsDigit(c) && c as int - '0' as int == d
  {
    ('0' as int + d) as char
  }

  function DigitValue(c: char): int
    requires IsDigit(c)
  {
    c as int - '0' as int
  }

  /** Value of a string of decimal digits. */
  function DecimalValue(s: string): (v: nat)
    requires AllDigits(s)
  {
    if s == [] then 0 else DecimalValue(s[..|s| - 1]) * 10 + DigitValue(s[|s| - 1])
  }

  /** `n.toString()` for a six-digit number. */
  function CodeString(n: SixDigit): (s: string)
    ensures |s| == 6 && AllDigits(s) && s[0] != '0'
    ensures DecimalValue(s) == n
  {
    var s := [DigitChar(n / 100000), DigitChar(n / 10000 % 10), DigitChar(n / 1000 % 10),
              DigitChar(n / 100 % 10), DigitChar(n / 10 % 10), DigitChar(n % 10)];
    SixDigitsValue(s);
    LeadingDigits(n);
    s
  }

  /** The value of six digits, place by place. */
  lemma SixDigitsValue(s: string)
    requires |s| == 6 && AllDigits(s)
    ensures DecimalValue(s) == DigitValue(s[0]) * 100000 + DigitValue(s[1]) * 10000 + DigitValue(s[2]) * 1000
                               + DigitValue(s[3]) * 100 + DigitValue(s[4]) * 10 + DigitValue(s[5])
  {
    assert s[..0] == [] && s[..6] == s;
    PrefixValue(s, 1);
    PrefixValue(s, 2);
    PrefixValue(s, 3);
    PrefixValue(s, 4);
    PrefixValue(s, 5);
    PrefixValue(s, 6);
  }

  /** The value of a prefix one digit longer. */
  lemma PrefixValue(s: string, k: int)
    requires AllDigits(s) && 0 < k <= |s|
    ensures DecimalValue(s[..k]) == DecimalValue(s[..k - 1]) * 10 + DigitValue(s[k - 1])
  {
    assert s[..k][..k - 1] == s[..k - 1];
  }

  /** Each decimal prefix of `n` is the shorter prefix times ten plus its last digit. */
  lemma LeadingDigits(n: SixDigit)
    ensures n / 10000 == n / 100000 * 10 + n / 10000 % 10
    ensures n / 1000 == n / 10000 * 10 + n / 1000 % 10
    ensures n / 100 == n / 1000 * 10 + n / 100 % 10
    ensures n / 10 == n / 100 * 10 + n / 10 % 10
    ensures n == n / 10 * 10 + n % 10
  {
  }

  /** A code has no white space for trimming to remove. */
  lemma CodeStringTrimmed(n: SixDigit)
    ensures Trim(CodeString(n)) == CodeString(n)
  {
    var s := CodeString(n);
    DigitNotSpace(s[0]);
    DigitNotSpace(s[5]);
    TrimKeepsUnpadded(s);
  }

  lemma DigitNotSpace(c: char)
    requires IsDigit(c)
    ensures !IsJsSpace(c)
  {
  }

  /** Distinct six-digit numbers give distinct codes. */
  lemma {:induction false} CodeStringInjective(a: SixDigit, b: SixDigit)
    requires CodeString(a) == CodeString(b)
    ensures a == b
  {
    assert DecimalValue(CodeString(a)) == a;
  }
}
