/**
What a kernel log message says (src/services/klog/klog.cc:65-145): plain text and percent signs as they are, and
numbers that read back as the arguments.
*/
module KlogTexts {
  import opened Klog
  import opened Text

  // ---------------------------------------------------------------- text and percent signs

  /** Text without percent signs is printed as it is. */
  lemma {:induction false} PlainRenders(conv: Conversion, text: string, args: Args, k: nat)
    requires '%' !in text
    ensures WellFormed(text) && Specifiers(text) == 0 && Render(conv, text, args, k) == text
    decreases |text|
  {
    if text != [] {
      PlainRenders(conv, text[1..], args, k);
      RenderTail(conv, text, args, k);
      assert text == [text[0]] + text[1..];
    }
  }

  /** Two characters that are no supported specifier: two percent signs print one, any others print themselves. */
  lemma TwoRender(conv: Conversion, c: char, args: Args, k: nat)
    requires !Supported(c)
    ensures WellFormed(['%', c]) && Specifiers(['%', c]) == 0
    ensures Render(conv, ['%', c], args, k) == if c == '%' then ['%'] else ['%', c]
  {
    var two := ['%', c];
    assert two[2..] == [];
    RenderTail(conv, two, args, k);
    assert WellFormed([]) && Specifiers([]) == 0 && Render(conv, [], args, k) == [];
  }

  lemma TwoFirst(conv: Conversion, c: char, after: string, args: Args, k: nat)
    requires WellFormed(after) && !Supported(c)
    ensures WellFormed(['%', c] + after)
    ensures Render(conv, ['%', c] + after, args, k) ==
            (if c == '%' then ['%'] else ['%', c]) + Render(conv, after, args, k)
  {
    TwoRender(conv, c, args, k);
    RenderAppend(conv, ['%', c], after, args, k);
  }

  /** The same anywhere in a format; no argument is used. */
  lemma PercentRenders(conv: Conversion, before: string, c: char, after: string, args: Args)
    requires WellFormed(before) && WellFormed(after) && !Supported(c)
    ensures WellFormed(before + (['%', c] + after))
    ensures Render(conv, before + (['%', c] + after), args, 0) ==
            Render(conv, before, args, 0)
            + ((if c == '%' then ['%'] else ['%', c]) + Render(conv, after, args, Specifiers(before)))
  {
    TwoFirst(conv, c, after, args, Specifiers(before));
    RenderAppend(conv, before, ['%', c] + after, args, 0);
  }

  // ---------------------------------------------------------------- numbers

  predicate IsDigit(c: char) {
    '0' <= c <= '9'
  }

  predicate IsLower(c: char) {
    IsDigit(c) || 'a' <= c <= 'f'
  }

  predicate IsUpper(c: char) {
    IsDigit(c) || 'A' <= c <= 'F'
  }

  /** What a decimal or hexadecimal digit is worth. */
  function Worth(c: char): int {
    if '0' <= c <= '9' then c as int - '0' as int
    else if 'a' <= c <= 'f' then c as int - 'a' as int + 10
    else if 'A' <= c <= 'F' then c as int - 'A' as int + 10
    else -1
  }

  /** Reads a number, most significant digit first. */
  function Read(s: string, base: nat): int {
    if s == [] then 0 else Read(s[..|s| - 1], base) * base + Worth(s[|s| - 1])
  }

  lemma ReadSnoc(s: string, c: char, base: nat)
    ensures Read(s + [c], base) == Read(s, base) * base + Worth(c)
  {
    assert (s + [c])[..|s|] == s;
  }

  /** The digits are in the order of their worth. */
  predicate InOrder(digits: string) {
    |digits| >= 2 && forall d | 0 <= d < |digits| :: Worth(digits[d]) == d
  }

  /** No zero in front, but for zero itself. */
  predicate NoLeadingZero(s: string) {
    s != [] && (s[0] == '0' ==> |s| == 1)
  }

  /** A numeral reads back as its number. */
  lemma {:induction false} NumeralReads(n: nat, digits: string)
    requires InOrder(digits)
    ensures Read(Numeral(n, digits), |digits|) == n
    ensures NoLeadingZero(Numeral(n, digits)) && (n > 0 ==> Numeral(n, digits)[0] != '0')
  {
    if n < |digits| {
      ReadSnoc([], digits[n], |digits|);
      assert [] + [digits[n]] == [digits[n]];
    } else {
      NumeralReads(n / |digits|, digits);
      DivMod(n, |digits|);
      ReadSnoc(Numeral(n / |digits|, digits), digits[n % |digits|], |digits|);
    }
  }

  lemma DecimalInOrder()
    ensures InOrder(DECIMAL) && |DECIMAL| == 10 && forall c | c in DECIMAL :: IsDigit(c)
  {
  }

  lemma LowerInOrder()
    ensures InOrder(HEX_LOWER) && |HEX_LOWER| == 16 && forall c | c in HEX_LOWER :: IsLower(c)
  {
  }

  lemma UpperInOrder()
    ensures InOrder(HEX_UPPER) && |HEX_UPPER| == 16 && forall c | c in HEX_UPPER :: IsUpper(c)
  {
  }

  /** A decimal number. */
  predicate Decimal(s: string, n: nat) {
    Read(s, 10) == n && NoLeadingZero(s) && forall c | c in s :: IsDigit(c)
  }

  lemma DecReads(n: nat)
    ensures Decimal(Dec(n), n)
  {
    DecimalInOrder();
    NumeralReads(n, DECIMAL);
  }

  /** A decimal number of 64 bits in two's complement. */
  predicate SignedDecimal(s: string, v: U64) {
    if v < 0x8000_0000_0000_0000 then Decimal(s, v)
    else s != [] && s[0] == '-' && Decimal(s[1..], 0x1_0000_0000_0000_0000 - v)
  }

  lemma SignedReads(v: U64)
    ensures SignedDecimal(Signed(v), v)
  {
    if v < TWO63 {
      DecReads(v);
    } else {
      DecReads(TWO64 - v);
      assert Signed(v)[1..] == Dec(TWO64 - v);
    }
  }

  predicate LowerHex(s: string, n: nat) {
    Read(s, 16) == n && NoLeadingZero(s) && forall c | c in s :: IsLower(c)
  }

  predicate UpperHex(s: string, n: nat) {
    Read(s, 16) == n && NoLeadingZero(s) && forall c | c in s :: IsUpper(c)
  }

  lemma LowerReads(n: nat)
    ensures LowerHex(Numeral(n, HEX_LOWER), n)
  {
    LowerInOrder();
    NumeralReads(n, HEX_LOWER);
  }

  lemma UpperReads(n: nat)
    ensures UpperHex(Numeral(n, HEX_UPPER), n)
  {
    UpperInOrder();
    NumeralReads(n, HEX_UPPER);
  }

  // ---------------------------------------------------------------- the conversions

  /** `%u` and `%d`. */
  lemma DecimalsReadBack(v: U64)
    ensures Decimal(Convert('u', v), v) && SignedDecimal(Convert('d', v), v)
  {
    DecReads(v);
    SignedReads(v);
  }

  /** `%x` and `%X`. */
  lemma HexReadsBack(v: U64)
    ensures LowerHex(Convert('x', v), v) && UpperHex(Convert('X', v), v)
  {
    LowerReads(v);
    UpperReads(v);
  }

  /** `%p`. */
  lemma PointerReadsBack(v: U64)
    ensures var s := Convert('p', v);
            if v == 0 then s == ['(', 'n', 'i', 'l', ')']
            else |s| > 2 && s[..2] == ['0', 'x'] && LowerHex(s[2..], v)
  {
    LowerReads(v);
    if v != 0 {
      assert Convert('p', v)[2..] == Numeral(v, HEX_LOWER);
    }
  }

  /** `%P`: the names of three protocols of IP, and numbers for all others. */
  lemma ProtocolReadsBack(v: U64)
    ensures var s := Convert('P', v);
            if v == 1 then s == ['I', 'C', 'M', 'P']
            else if v == 6 then s == ['T', 'C', 'P']
            else if v == 17 then s == ['U', 'D', 'P']
            else SignedDecimal(s, v)
  {
    SignedReads(v);
  }

  lemma DivideTwice(v: nat)
    ensures v / 256 / 256 == v / 0x1_0000 && v / 256 / 256 / 256 == v / 0x100_0000
  {
  }

  /** `%A`: the low four bytes as decimal numbers, lowest first, with dots between them. */
  lemma AddressReadsBack(v: U64) returns (a: string, b: string, c: string, d: string)
    ensures Convert('A', v) == a + "." + (b + "." + (c + "." + d))
    ensures Decimal(a, v % 0x100) && Decimal(b, v / 0x100 % 0x100)
    ensures Decimal(c, v / 0x1_0000 % 0x100) && Decimal(d, v / 0x100_0000 % 0x100)
  {
    a, b, c, d := Dec(v % 256), Dec(v / 256 % 256), Dec(v / 256 / 256 % 256), Dec(v / 256 / 256 / 256 % 256);
    DivideTwice(v);
    DecReads(v % 256);
    DecReads(v / 256 % 256);
    DecReads(v / 256 / 256 % 256);
    DecReads(v / 256 / 256 / 256 % 256);
  }
}
