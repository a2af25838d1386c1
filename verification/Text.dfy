// Numerals and the string searches the program uses.
module Text {

  const DECIMAL := "0123456789"
  const HEX_LOWER := "0123456789abcdef"
  const HEX_UPPER := "0123456789ABCDEF"

  predicate DistinctDigits(digits: string) {
    forall i, j | 0 <= i < j < |digits| :: digits[i] != digits[j]
  }

  /** The numeral of `n` in base `|digits|`, as printf writes it: no leading zeros, "0" for zero. */
  function Numeral(n: nat, digits: string): (s: string)
    requires |digits| >= 2
    ensures |s| >= 1
    ensures forall c | c in s :: c in digits
  {
    if n < |digits| then [digits[n]] else Numeral(n / |digits|, digits) + [digits[n % |digits|]]
  }

  function DigitValue(c: char, digits: string): (v: nat)
    requires c in digits
    ensures v < |digits| && digits[v] == c
  {
    if digits[0] == c then 0 else 1 + DigitValue(c, digits[1..])
  }

  /** The number a numeral stands for. */
  function Value(s: string, digits: string): nat
    requires forall c | c in s :: c in digits
  {
    if s == [] then 0 else Value(s[..|s| - 1], digits) * |digits| + DigitValue(s[|s| - 1], digits)
  }

  lemma DigitRoundTrip(d: nat, digits: string)
    requires DistinctDigits(digits) && d < |digits|
    ensures DigitValue(digits[d], digits) == d
  {
  }

  lemma DivMod(n: nat, b: nat)
    requires b > 0
    ensures n / b * b + n % b == n
  {
  }

  lemma ValueSnoc(s: string, d: nat, digits: string)
    requires DistinctDigits(digits) && d < |digits|
    requires forall c | c in s :: c in digits
    ensures forall c | c in s + [digits[d]] :: c in digits
    ensures Value(s + [digits[d]], digits) == Value(s, digits) * |digits| + d
  {
    DigitRoundTrip(d, digits);
    assert (s + [digits[d]])[..|s|] == s;
  }

  lemma SingleDigit(n: nat, digits: string)
    requires |digits| >= 2 && DistinctDigits(digits) && n < |digits|
    ensures Value([digits[n]], digits) == n
  {
    DigitRoundTrip(n, digits);
    var front := [digits[n]][..0];
    assert front == [];
    assert Value(front, digits) == 0;
  }

  /** One digit more: `q` is what the other digits stand for. */
  lemma DigitMore(front: string, q: nat, r: nat, n: nat, digits: string)
    requires |digits| >= 2 && DistinctDigits(digits) && r < |digits| && n == q * |digits| + r
    requires (forall c | c in front :: c in digits) && Value(front, digits) == q
    ensures forall c | c in front + [digits[r]] :: c in digits
    ensures Value(front + [digits[r]], digits) == n
  {
    ValueSnoc(front, r, digits);
  }

  lemma {:induction false} NumeralRoundTrip(n: nat, digits: string)
    requires |digits| >= 2 && DistinctDigits(digits)
    ensures Value(Numeral(n, digits), digits) == n
  {
    if n < |digits| {
      SingleDigit(n, digits);
    } else {
      NumeralRoundTrip(n / |digits|, digits);
      DivMod(n, |digits|);
      DigitMore(Numeral(n / |digits|, digits), n / |digits|, n % |digits|, n, digits);
    }
  }

  lemma NumeralInjective(m: nat, n: nat, digits: string)
    requires |digits| >= 2 && DistinctDigits(digits) && Numeral(m, digits) == Numeral(n, digits)
    ensures m == n
  {
    NumeralRoundTrip(m, digits);
    NumeralRoundTrip(n, digits);
  }

  function Dec(n: nat): (s: string)
    ensures |s| >= 1 && forall c | c in s :: c in DECIMAL
  {
    Numeral(n, DECIMAL)
  }

  lemma DecInjective(m: nat, n: nat)
    requires Dec(m) == Dec(n)
    ensures m == n
  {
    NumeralInjective(m, n, DECIMAL);
  }

  /** Position of the first `c`, or `|s|`. */
  function FirstIndex(s: string, c: char): (i: nat)
    ensures i <= |s| && c !in s[..i] && (i < |s| ==> s[i] == c)
  {
    if s == [] || s[0] == c then 0
    else
      assert forall k | 1 <= k <= |s| :: s[..k] == [s[0]] + s[1..][..k - 1];
      1 + FirstIndex(s[1..], c)
  }

  /** One past the last `c`, or 0. */
  function AfterLast(s: string, c: char): (i: nat)
    ensures i <= |s| && c !in s[i..] && (i > 0 ==> s[i - 1] == c)
  {
    if s == [] then 0
    else if s[|s| - 1] == c then |s|
    else
      assert forall k | 0 <= k < |s| :: s[k..] == s[..|s| - 1][k..] + [s[|s| - 1]];
      AfterLast(s[..|s| - 1], c)
  }

  lemma {:induction false} FirstIndexOf(a: string, b: string, c: char)
    requires c !in a && (b == [] || b[0] == c)
    ensures FirstIndex(a + b, c) == |a|
  {
    if a == [] {
      assert a + b == b;
    } else {
      assert (a + b)[1..] == a[1..] + b;
      FirstIndexOf(a[1..], b, c);
    }
  }

  lemma {:induction false} AfterLastOf(a: string, b: string, c: char)
    requires c !in b && (a == [] || a[|a| - 1] == c)
    ensures AfterLast(a + b, c) == |a|
  {
    var s := a + b;
    if b == [] {
      assert s == a;
    } else {
      assert s[..|s| - 1] == a + b[..|b| - 1];
      AfterLastOf(a, b[..|b| - 1], c);
    }
  }

  /** Two splittings of a string at its first `c` are the same splitting. */
  lemma SplitAtFirst(a: string, b: string, a': string, b': string, c: char)
    requires c !in a && c !in a' && a + b == a' + b'
    requires (b == [] || b[0] == c) && (b' == [] || b'[0] == c)
    ensures a == a' && b == b'
  {
    FirstIndexOf(a, b, c);
    FirstIndexOf(a', b', c);
    assert a == (a + b)[..|a|] && a' == (a' + b')[..|a'|];
    assert b == (a + b)[|a|..] && b' == (a' + b')[|a'|..];
  }

  /** The same from the right: what follows the last `c` is determined. */
  lemma SplitAtLast(a: string, b: string, a': string, b': string, c: char)
    requires c !in b && c !in b' && a + b == a' + b'
    requires (a == [] || a[|a| - 1] == c) && (a' == [] || a'[|a'| - 1] == c)
    ensures a == a' && b == b'
  {
    AfterLastOf(a, b, c);
    AfterLastOf(a', b', c);
    assert a == (a + b)[..|a|] && a' == (a' + b')[..|a'|];
    assert b == (a + b)[|a|..] && b' == (a' + b')[|a'|..];
  }

  predicate EndsWith(s: string, suffix: string) {
    |s| >= |suffix| && s[|s| - |suffix|..] == suffix
  }

  function ToUpper(s: string): (r: string)
    ensures |r| == |s|
  {
    seq(|s|, i requires 0 <= i < |s| => UpperChar(s[i]))
  }

  function UpperChar(c: char): char {
    if 'a' <= c <= 'z' then c - 'a' + 'A' else c
  }
}
