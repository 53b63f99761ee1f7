/** String operations the bot applies to webhook payload fields: Python's
    `str.lower` restricted to ASCII letters, the substring test `m in s`, and
    the `:d` format of an integer. */
module Text {

  predicate IsAsciiUpper(c: char) {
    'A' <= c <= 'Z'
  }

  /** `str.lower` on one character; only ASCII capitals change. */
  function LowerChar(c: char): (l: char)
    ensures !IsAsciiUpper(l)
    ensures !IsAsciiUpper(c) ==> l == c
    ensures IsAsciiUpper(c) ==> 'a' <= l <= 'z' && l as int - 'a' as int == c as int - 'A' as int
  {
    if IsAsciiUpper(c) then (c as int - 'A' as int + 'a' as int) as char else c
  }

  /** `str.lower` on a string, character by character. */
  function Lower(s: string): (r: string)
    ensures |r| == |s|
    ensures forall i :: 0 <= i < |s| ==> r[i] == LowerChar(s[i])
  {
    if s == [] then [] else [LowerChar(s[0])] + Lower(s[1..])
  }

  /** Two strings that differ at most in the case of ASCII letters. */
  predicate EqualIgnoringCase(a: string, b: string) {
    |a| == |b| && forall i :: 0 <= i < |a| ==> LowerChar(a[i]) == LowerChar(b[i])
  }

  lemma LowerOfCaseVariants(a: string, b: string)
    requires EqualIgnoringCase(a, b)
    ensures Lower(a) == Lower(b)
  {
  }

  lemma LowerAppend(a: string, b: string)
    ensures Lower(a + b) == Lower(a) + Lower(b)
  {
  }

  /** Python's `m in s` for strings: `m` occurs in `s` as a contiguous run. */
  function Contains(s: string, m: string): bool
    decreases |s|
  {
    |m| <= |s| && (s[..|m|] == m || Contains(s[1..], m))
  }

  /** `m` occurs in `s` starting at index `i`. */
  predicate OccursAt(s: string, m: string, i: int) {
    0 <= i && i + |m| <= |s| && s[i..i + |m|] == m
  }

  /** The scanning definition of `Contains` agrees with the positional one. */
  lemma {:induction false} ContainsIff(s: string, m: string)
    ensures Contains(s, m) <==> exists i :: OccursAt(s, m, i)
    decreases |s|
  {
    if |m| <= |s| {
      if |s| > 0 {
        ContainsIff(s[1..], m);
      }
      if Contains(s, m) {
        if s[..|m|] == m {
          assert OccursAt(s, m, 0);
        } else {
          var j :| OccursAt(s[1..], m, j);
          assert s[1..][j..j + |m|] == s[j + 1..j + 1 + |m|];
          assert OccursAt(s, m, j + 1);
        }
      }
      if exists i :: OccursAt(s, m, i) {
        var i :| OccursAt(s, m, i);
        if i > 0 {
          assert s[1..][i - 1..i - 1 + |m|] == s[i..i + |m|];
          assert OccursAt(s[1..], m, i - 1);
        }
      }
    }
  }

  /** Text written around a string keeps every substring it had. */
  lemma ContainsInContext(p: string, s: string, q: string, m: string)
    requires Contains(s, m)
    ensures Contains(p + s + q, m)
  {
    ContainsIff(s, m);
    var i :| OccursAt(s, m, i);
    assert (p + s + q)[|p| + i..|p| + i + |m|] == s[i..i + |m|];
    assert OccursAt(p + s + q, m, |p| + i);
    ContainsIff(p + s + q, m);
  }

  /** A string containing `m` holds `m`'s first character, followed by its second. */
  lemma ContainsHead(s: string, m: string)
    requires |m| >= 1
    ensures Contains(s, m) ==>
      exists i :: 0 <= i && i + |m| <= |s| && s[i] == m[0] && (|m| >= 2 ==> s[i + 1] == m[1])
  {
    ContainsIff(s, m);
    if Contains(s, m) {
      var i :| OccursAt(s, m, i);
      assert s[i] == s[i..i + |m|][0];
      if |m| >= 2 {
        assert s[i + 1] == s[i..i + |m|][1];
      }
    }
  }

  function DigitChar(d: nat): (c: char)
    requires d < 10
  {
    ('0' as int + d) as char
  }

  predicate IsDigit(c: char) {
    '0' <= c <= '9'
  }

  predicate AllDigits(s: string) {
    forall i :: 0 <= i < |s| ==> IsDigit(s[i])
  }

  /** Decimal digits of a natural number, most significant first. */
  function Digits(n: nat): (r: string)
    ensures |r| >= 1 && AllDigits(r)
    ensures r[0] == '0' ==> n == 0
    decreases n
  {
    if n < 10 then [DigitChar(n)] else Digits(n / 10) + [DigitChar(n % 10)]
  }

  /** The number a string of decimal digits denotes. */
  function DigitsValue(s: string): nat
    requires AllDigits(s)
  {
    if s == [] then 0 else DigitsValue(s[..|s| - 1]) * 10 + (s[|s| - 1] as int - '0' as int)
  }

  lemma {:induction false} DigitsRoundTrip(n: nat)
    ensures DigitsValue(Digits(n)) == n
    decreases n
  {
    if n >= 10 {
      var r := Digits(n);
      assert r[..|r| - 1] == Digits(n / 10);
      DigitsRoundTrip(n / 10);
    }
  }

  /** Python's `format(n, 'd')`: a minus sign for negatives, then the digits. */
  function Decimal(n: int): (r: string)
    ensures |r| >= 1 && '/' !in r
  {
    if n < 0 then "-" + Digits(-n) else Digits(n)
  }

  /** Different integers are formatted differently. */
  lemma DecimalInjective(a: int, b: int)
    requires Decimal(a) == Decimal(b)
    ensures a == b
  {
    if a < 0 {
      assert Decimal(a)[0] == '-';
      assert Decimal(b)[0] == '-';
      assert b < 0;
      assert Digits(-a) == Decimal(a)[1..] == Digits(-b);
      DigitsInjective(-a, -b);
    } else {
      assert IsDigit(Decimal(a)[0]);
      assert IsDigit(Decimal(b)[0]);
      assert b >= 0;
      DigitsInjective(a, b);
    }
  }

  lemma DigitsInjective(x: nat, y: nat)
    requires Digits(x) == Digits(y)
    ensures x == y
  {
    DigitsRoundTrip(x);
    DigitsRoundTrip(y);
  }
}
