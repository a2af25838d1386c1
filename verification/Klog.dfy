/**
The formatter of kernel log messages (src/services/klog/klog.cc:60-145).
*/
module Klog {
  import opened Text
  import opened Wrappers

  const MAX_ARGS_CNT := 10
  const BUFFER_SIZE := 1024
  const TWO63 := 0x8000_0000_0000_0000
  const TWO64 := 0x1_0000_0000_0000_0000

  type U64 = x: nat | x < TWO64
  type Args = a: seq<U64> | |a| == MAX_ARGS_CNT witness [0, 0, 0, 0, 0, 0, 0, 0, 0, 0]

  // ---------------------------------------------------------------- conversions

  predicate Supported(spec: char) {
    spec == 'd' || spec == 'u' || spec == 'x' || spec == 'X' || spec == 'p' || spec == 'P' || spec == 'A'
  }

  /** A 64-bit pattern read as a signed number. */
  function Signed(v: U64): string {
    if v < TWO63 then Dec(v) else "-" + Dec(TWO64 - v)
  }

  /** inet_ntoa on the low 32 bits, whose first byte in memory is the lowest. */
  function Address(v: U64): string {
    Dec(v % 256) + "." + (Dec(v / 256 % 256) + "." + (Dec(v / 256 / 256 % 256) + "." + Dec(v / 256 / 256 / 256 % 256)))
  }

  /** How one argument is printed; the specifiers and their conversions. */
  type Conversion = (char, U64) -> string

  function Convert(spec: char, v: U64): string {
    match spec
    case 'd' => Signed(v)
    case 'u' => Dec(v)
    case 'x' => Numeral(v, HEX_LOWER)
    case 'X' => Numeral(v, HEX_UPPER)
    case 'p' => if v == 0 then "(nil)" else "0x" + Numeral(v, HEX_LOWER)
    case 'P' => if v == 6 then "TCP" else if v == 17 then "UDP" else if v == 1 then "ICMP" else Signed(v)
    case 'A' => Address(v)
    case _ => ""
  }

  const CONVERSIONS: Conversion := (spec, v: U64) => Convert(spec, v)

  lemma NumeralHasNo(n: nat, digits: string, c: char)
    requires |digits| >= 2 && c !in digits
    ensures c !in Numeral(n, digits)
  {
  }

  /** The signed conversion loses nothing. */
  lemma SignedInjective(v: U64, w: U64)
    requires Signed(v) == Signed(w)
    ensures v == w
  {
    if v < TWO63 && w < TWO63 {
      DecInjective(v, w);
    } else if v >= TWO63 && w >= TWO63 {
      assert Signed(v)[1..] == Dec(TWO64 - v) && Signed(w)[1..] == Dec(TWO64 - w);
      DecInjective(TWO64 - v, TWO64 - w);
    } else if v < TWO63 {
      SignsDiffer(v, w);
    } else {
      SignsDiffer(w, v);
    }
  }

  lemma SignsDiffer(v: U64, w: U64)
    requires v < TWO63 <= w
    ensures Signed(v) != Signed(w)
  {
    NumeralHasNo(v, DECIMAL, '-');
    assert Signed(w)[0] == '-';
  }

  lemma SameField(a: nat, s: string, b: nat, t: string)
    requires Dec(a) + "." + s == Dec(b) + "." + t
    ensures a == b && s == t
  {
    NumeralHasNo(a, DECIMAL, '.');
    NumeralHasNo(b, DECIMAL, '.');
    assert Dec(a) + "." + s == Dec(a) + ("." + s) && Dec(b) + "." + t == Dec(b) + ("." + t);
    SplitAtFirst(Dec(a), "." + s, Dec(b), "." + t, '.');
    assert ("." + s)[1..] == s && ("." + t)[1..] == t;
    DecInjective(a, b);
  }

  /** A dotted address determines the 32 bits it was made from. */
  lemma AddressInjective(v: U64, w: U64)
    requires Address(v) == Address(w)
    ensures v % 0x1_0000_0000 == w % 0x1_0000_0000
  {
    var v1, w1 := v / 256, w / 256;
    var v2, w2 := v1 / 256, w1 / 256;
    var v3, w3 := v2 / 256, w2 / 256;
    SameField(v % 256, Dec(v1 % 256) + "." + (Dec(v2 % 256) + "." + Dec(v3 % 256)),
              w % 256, Dec(w1 % 256) + "." + (Dec(w2 % 256) + "." + Dec(w3 % 256)));
    SameField(v1 % 256, Dec(v2 % 256) + "." + Dec(v3 % 256), w1 % 256, Dec(w2 % 256) + "." + Dec(w3 % 256));
    SameField(v2 % 256, Dec(v3 % 256), w2 % 256, Dec(w3 % 256));
    DecInjective(v3 % 256, w3 % 256);
    Bytes(v);
    Bytes(w);
  }

  lemma Bytes(v: nat)
    ensures var v1 := v / 256; var v2 := v1 / 256; var v3 := v2 / 256;
            v % 0x1_0000_0000 == v % 256 + v1 % 256 * 256 + v2 % 256 * 0x1_0000 + v3 % 256 * 0x100_0000
  {
    var v1 := v / 256;
    var v2 := v1 / 256;
    var v3 := v2 / 256;
    var low := v % 256 + v1 % 256 * 256 + v2 % 256 * 0x1_0000 + v3 % 256 * 0x100_0000;
    assert v == low + v3 / 256 * 0x1_0000_0000;
    Remainder(v, v3 / 256, low);
  }

  lemma Remainder(v: nat, high: nat, low: nat)
    requires v == low + high * 0x1_0000_0000 && low < 0x1_0000_0000
    ensures v % 0x1_0000_0000 == low
  {
  }

  // ---------------------------------------------------------------- the reference

  /** Every '%' is followed by a character. */
  predicate WellFormed(fmt: string) {
    fmt == [] ||
    (if fmt[0] != '%' then WellFormed(fmt[1..]) else |fmt| > 1 && WellFormed(fmt[2..]))
  }

  /** How many characters of the format make up its first token. */
  function TokenLength(fmt: string): (n: nat)
    requires fmt != [] && WellFormed(fmt)
    ensures 1 <= n <= |fmt| && WellFormed(fmt[n..])
  {
    if fmt[0] == '%' then 2 else 1
  }

  predicate IsSpecifier(fmt: string)
    requires fmt != [] && WellFormed(fmt)
  {
    fmt[0] == '%' && Supported(fmt[1])
  }

  /** What the first token prints when `k` arguments have been used. */
  function Token(conv: Conversion, fmt: string, args: Args, k: nat): string
    requires fmt != [] && WellFormed(fmt)
  {
    if fmt[0] != '%' then [fmt[0]]
    else if fmt[1] == '%' then "%"
    else if !Supported(fmt[1]) then ['%', fmt[1]]
    else if k >= MAX_ARGS_CNT then "<missing>"
    else conv(fmt[1], args[k])
  }

  function Uses(fmt: string): nat
    requires fmt != [] && WellFormed(fmt)
  {
    if IsSpecifier(fmt) then 1 else 0
  }

  /** The message when `k` arguments have been used before. */
  function Render(conv: Conversion, fmt: string, args: Args, k: nat): string
    requires WellFormed(fmt)
    decreases |fmt|
  {
    if fmt == [] then [] else Token(conv, fmt, args, k) + Render(conv, fmt[TokenLength(fmt)..], args, k + Uses(fmt))
  }

  /** Supported specifiers in a format. */
  function Specifiers(fmt: string): nat
    requires WellFormed(fmt)
    decreases |fmt|
  {
    if fmt == [] then 0 else Uses(fmt) + Specifiers(fmt[TokenLength(fmt)..])
  }

  lemma {:induction false} WellFormedAppend(a: string, b: string)
    requires WellFormed(a) && WellFormed(b)
    ensures WellFormed(a + b)
    decreases |a|
  {
    if a == [] {
      assert a + b == b;
    } else {
      var n := TokenLength(a);
      assert (a + b)[n..] == a[n..] + b;
      WellFormedAppend(a[n..], b);
    }
  }

  lemma Associates(a: string, b: string, c: string)
    ensures a + (b + c) == (a + b) + c
  {
  }

  /** What follows a format does not change its first token. */
  lemma FirstToken(conv: Conversion, a: string, b: string, args: Args, k: nat)
    requires WellFormed(a) && a != [] && WellFormed(a + b)
    ensures TokenLength(a + b) == TokenLength(a) && Uses(a + b) == Uses(a)
    ensures Token(conv, a + b, args, k) == Token(conv, a, args, k)
    ensures (a + b)[TokenLength(a)..] == a[TokenLength(a)..] + b
  {
    assert (a + b)[0] == a[0] && (|a| > 1 ==> (a + b)[1] == a[1]);
  }

  lemma {:induction false} SpecifiersAppend(a: string, b: string)
    requires WellFormed(a) && WellFormed(b)
    ensures WellFormed(a + b) && Specifiers(a + b) == Specifiers(a) + Specifiers(b)
    decreases |a|
  {
    WellFormedAppend(a, b);
    if a == [] {
      assert a + b == b;
    } else {
      FirstToken((_, _) => "", a, b, [0, 0, 0, 0, 0, 0, 0, 0, 0, 0], 0);
      SpecifiersAppend(a[TokenLength(a)..], b);
    }
  }

  /** A message is put together piece by piece; each piece uses as many arguments as it has specifiers. */
  lemma {:induction false} RenderAppend(conv: Conversion, a: string, b: string, args: Args, k: nat)
    requires WellFormed(a) && WellFormed(b)
    ensures WellFormed(a + b)
    ensures Render(conv, a + b, args, k) == Render(conv, a, args, k) + Render(conv, b, args, k + Specifiers(a))
    decreases |a|
  {
    WellFormedAppend(a, b);
    if a == [] {
      assert a + b == b;
    } else {
      RenderAppend(conv, a[TokenLength(a)..], b, args, k + Uses(a));
      RenderAppendStep(conv, a, b, args, k);
    }
  }

  /** One token more in front. */
  lemma RenderAppendStep(conv: Conversion, a: string, b: string, args: Args, k: nat)
    requires WellFormed(a) && WellFormed(b) && a != [] && WellFormed(a + b) && WellFormed(a[TokenLength(a)..] + b)
    requires var front := a[TokenLength(a)..];
             Render(conv, front + b, args, k + Uses(a)) ==
             Render(conv, front, args, k + Uses(a)) + Render(conv, b, args, k + Uses(a) + Specifiers(front))
    ensures Render(conv, a + b, args, k) == Render(conv, a, args, k) + Render(conv, b, args, k + Specifiers(a))
  {
    var front := a[TokenLength(a)..];
    FirstToken(conv, a, b, args, k);
    RenderTail(conv, a, args, k);
    RenderTail(conv, a + b, args, k);
    Joined(Render(conv, a + b, args, k), Token(conv, a, args, k), Render(conv, front + b, args, k + Uses(a)),
           Render(conv, front, args, k + Uses(a)), Render(conv, b, args, k + Specifiers(a)), Render(conv, a, args, k));
  }

  lemma Joined(all: string, token: string, tail: string, front: string, back: string, head: string)
    requires all == token + tail && tail == front + back && head == token + front
    ensures all == head + back
  {
  }

  lemma RenderTail(conv: Conversion, fmt: string, args: Args, k: nat)
    requires WellFormed(fmt) && fmt != []
    ensures Render(conv, fmt, args, k) ==
            Token(conv, fmt, args, k) + Render(conv, fmt[TokenLength(fmt)..], args, k + Uses(fmt))
    ensures Specifiers(fmt) == Uses(fmt) + Specifiers(fmt[TokenLength(fmt)..])
  {
  }

  /** The specifier after `k` others prints argument k, or `<missing>` past the tenth. */
  lemma SpecifierUsesItsArgument(conv: Conversion, before: string, spec: char, after: string, args: Args)
    requires WellFormed(before) && WellFormed(after) && Supported(spec)
    ensures var k := Specifiers(before);
            && WellFormed(before + ['%', spec] + after)
            && Render(conv, before + ['%', spec] + after, args, 0) ==
               Render(conv, before, args, 0) + (if k < 10 then conv(spec, args[k]) else "<missing>")
               + Render(conv, after, args, k + 1)
  {
    var one, k := ['%', spec], Specifiers(before);
    SpecifierFirst(conv, spec, after, args, k);
    RenderAppend(conv, before, one + after, args, 0);
    Associates(before, one, after);
    Associates(Render(conv, before, args, 0), if k < MAX_ARGS_CNT then conv(spec, args[k]) else "<missing>",
               Render(conv, after, args, k + 1));
  }

  lemma SpecifierFirst(conv: Conversion, spec: char, after: string, args: Args, k: nat)
    requires WellFormed(after) && Supported(spec)
    ensures WellFormed(['%', spec] + after)
    ensures Render(conv, ['%', spec] + after, args, k) ==
            (if k < MAX_ARGS_CNT then conv(spec, args[k]) else "<missing>") + Render(conv, after, args, k + 1)
  {
    SingleToken(conv, spec, args, k);
    RenderAppend(conv, ['%', spec], after, args, k);
  }

  lemma SingleToken(conv: Conversion, spec: char, args: Args, k: nat)
    requires Supported(spec)
    ensures WellFormed(['%', spec]) && Specifiers(['%', spec]) == 1
    ensures Render(conv, ['%', spec], args, k) == if k < MAX_ARGS_CNT then conv(spec, args[k]) else "<missing>"
  {
    var one := ['%', spec];
    assert one[2..] == [];
    assert WellFormed([]) && Specifiers([]) == 0 && Render(conv, [], args, k + 1) == [];
    assert Token(conv, one, args, k) + [] == Token(conv, one, args, k);
  }

  // ---------------------------------------------------------------- how far the buffer is written

  /**
  Where the loop leaves `pos`: it stops at the end of the format or of the buffer, but a token that starts inside
  may lead past the end.
  */
  function FinalPos(conv: Conversion, fmt: string, args: Args, k: nat, pos: nat): nat
    requires WellFormed(fmt)
    decreases |fmt|
  {
    if fmt == [] || pos >= BUFFER_SIZE - 1 then pos
    else FinalPos(conv, fmt[TokenLength(fmt)..], args, k + Uses(fmt), pos + |Token(conv, fmt, args, k)|)
  }

  lemma {:induction false} FinalPosAtLeast(conv: Conversion, fmt: string, args: Args, k: nat, pos: nat)
    requires WellFormed(fmt)
    ensures FinalPos(conv, fmt, args, k, pos) >= pos
    ensures pos < BUFFER_SIZE ==>
              (FinalPos(conv, fmt, args, k, pos) == pos + |Render(conv, fmt, args, k)|
               || FinalPos(conv, fmt, args, k, pos) >= BUFFER_SIZE - 1)
    ensures FinalPos(conv, fmt, args, k, pos) <= pos + |Render(conv, fmt, args, k)|
    decreases |fmt|
  {
    if fmt != [] && pos < BUFFER_SIZE - 1 {
      FinalPosAtLeast(conv, fmt[TokenLength(fmt)..], args, k + Uses(fmt), pos + |Token(conv, fmt, args, k)|);
    }
  }

  /** The first `n` characters of the format are whole tokens that fill the buffer up to its last place. */
  ghost predicate FillsExactly(conv: Conversion, fmt: string, args: Args, k: nat, pos: nat, n: nat) {
    n <= |fmt| && WellFormed(fmt[..n]) && pos + |Render(conv, fmt[..n], args, k)| == 1023
  }

  /** A well-formed beginning of a format is cut at a token. */
  lemma CutAtToken(conv: Conversion, fmt: string, args: Args, k: nat, n: nat)
    requires WellFormed(fmt) && 1 <= n <= |fmt|
    ensures var m := TokenLength(fmt);
            if WellFormed(fmt[..n]) then
              && m <= n && WellFormed(fmt[m..][..n - m])
              && Render(conv, fmt[..n], args, k) ==
                 Token(conv, fmt, args, k) + Render(conv, fmt[m..][..n - m], args, k + Uses(fmt))
            else m > n || !WellFormed(fmt[m..][..n - m])
  {
    var m, head := TokenLength(fmt), fmt[..n];
    if m <= n {
      assert head[m..] == fmt[m..][..n - m];
      assert head[0] == fmt[0] && (m == 2 ==> head[1] == fmt[1]);
    }
  }

  ghost predicate CanFill(conv: Conversion, fmt: string, args: Args, k: nat, pos: nat) {
    exists n: nat :: FillsExactly(conv, fmt, args, k, pos, n)
  }

  /** Passing the first token. */
  lemma FillsBehindToken(conv: Conversion, fmt: string, args: Args, k: nat, pos: nat, rest: string, k': nat,
                         pos': nat, n: nat)
    requires WellFormed(fmt) && fmt != [] && n <= |rest|
    requires rest == fmt[TokenLength(fmt)..] && k' == k + Uses(fmt) && pos' == pos + |Token(conv, fmt, args, k)|
    ensures FillsExactly(conv, fmt, args, k, pos, TokenLength(fmt) + n) <==> FillsExactly(conv, rest, args, k', pos', n)
  {
    CutAtToken(conv, fmt, args, k, TokenLength(fmt) + n);
  }

  lemma NotAtOnce(conv: Conversion, fmt: string, args: Args, k: nat, pos: nat)
    requires pos < BUFFER_SIZE - 1
    ensures !FillsExactly(conv, fmt, args, k, pos, 0)
  {
    assert fmt[..0] == [];
  }

  lemma CanFillStep(conv: Conversion, fmt: string, args: Args, k: nat, pos: nat, rest: string, k': nat, pos': nat)
    requires WellFormed(fmt) && fmt != [] && pos < BUFFER_SIZE - 1
    requires rest == fmt[TokenLength(fmt)..] && k' == k + Uses(fmt) && pos' == pos + |Token(conv, fmt, args, k)|
    ensures CanFill(conv, fmt, args, k, pos) <==> CanFill(conv, rest, args, k', pos')
  {
    NotAtOnce(conv, fmt, args, k, pos);
    if n: nat :| FillsExactly(conv, fmt, args, k, pos, n) {
      CutAtToken(conv, fmt, args, k, n);
      FillsBehindToken(conv, fmt, args, k, pos, rest, k', pos', n - TokenLength(fmt));
    }
    if n: nat :| FillsExactly(conv, rest, args, k', pos', n) {
      FillsBehindToken(conv, fmt, args, k, pos, rest, k', pos', n);
    }
  }

  /** Nothing fills the buffer up to its last place from behind that place. */
  lemma NoneFillsFromBehind(conv: Conversion, fmt: string, args: Args, k: nat, pos: nat)
    requires pos >= BUFFER_SIZE
    ensures !CanFill(conv, fmt, args, k, pos)
  {
  }

  lemma FillsExactlyAtOnce(conv: Conversion, fmt: string, args: Args, k: nat)
    ensures CanFill(conv, fmt, args, k, BUFFER_SIZE - 1)
  {
    assert fmt[..0] == [];
    assert FillsExactly(conv, fmt, args, k, BUFFER_SIZE - 1, 0);
  }

  lemma {:induction false} InsideExactlyFrom(conv: Conversion, fmt: string, args: Args, k: nat, pos: nat)
    requires WellFormed(fmt)
    ensures FinalPos(conv, fmt, args, k, pos) < BUFFER_SIZE <==>
            pos + |Render(conv, fmt, args, k)| < BUFFER_SIZE || CanFill(conv, fmt, args, k, pos)
    decreases |fmt|
  {
    if pos >= BUFFER_SIZE {
      NoneFillsFromBehind(conv, fmt, args, k, pos);
    } else if pos == BUFFER_SIZE - 1 {
      FillsExactlyAtOnce(conv, fmt, args, k);
    } else if fmt != [] {
      InsideExactlyFrom(conv, fmt[TokenLength(fmt)..], args, k + Uses(fmt), pos + |Token(conv, fmt, args, k)|);
      var rest, k', pos' := fmt[TokenLength(fmt)..], k + Uses(fmt), pos + |Token(conv, fmt, args, k)|;
      RenderTail(conv, fmt, args, k);
      CanFillStep(conv, fmt, args, k, pos, rest, k', pos');
    }
  }

  /** What a format must render to for every write to stay inside the buffer. */
  ghost predicate Fits(conv: Conversion, fmt: string, args: Args)
    requires WellFormed(fmt)
  {
    |Render(conv, fmt, args, 0)| < 1024 || CanFill(conv, fmt, args, 0, 0)
  }

  /**
  The loop stays inside the buffer if and only if the message fits, or its beginning, cut at some token, takes up
  exactly the 1023 places before the NUL.
  */
  lemma InsideExactly(conv: Conversion, fmt: string, args: Args)
    requires WellFormed(fmt)
    ensures FinalPos(conv, fmt, args, 0, 0) < 1024 <==> Fits(conv, fmt, args)
  {
    InsideExactlyFrom(conv, fmt, args, 0, 0);
  }

  /** A message of at most 1023 characters is written completely. */
  lemma ShortMessagesFit(conv: Conversion, fmt: string, args: Args)
    requires WellFormed(fmt) && |Render(conv, fmt, args, 0)| < 1024
    ensures FinalPos(conv, fmt, args, 0, 0) == |Render(conv, fmt, args, 0)|
  {
    FinalPosAtLeast(conv, fmt, args, 0, 0);
  }

  lemma {:induction false} PlainText(conv: Conversion, text: string, rest: string, args: Args, k: nat, pos: nat)
    requires '%' !in text && WellFormed(rest) && pos + |text| < BUFFER_SIZE
    ensures WellFormed(text + rest)
    ensures FinalPos(conv, text + rest, args, k, pos) == FinalPos(conv, rest, args, k, pos + |text|)
    decreases |text|
  {
    if text == [] {
      assert text + rest == rest;
    } else {
      assert (text + rest)[1..] == text[1..] + rest && (text + rest)[0] != '%';
      PlainText(conv, text[1..], rest, args, k, pos + 1);
      assert TokenLength(text + rest) == 1 && Uses(text + rest) == 0;
    }
  }

  /** An unknown specifier behind 1022 plain characters leads past the end of the buffer. */
  lemma UnknownSpecifierOverruns(conv: Conversion, text: string, c: char, args: Args)
    requires '%' !in text && |text| == 1022 && c != '%' && !Supported(c)
    ensures WellFormed(text + ['%', c]) && FinalPos(conv, text + ['%', c], args, 0, 0) == 1024
  {
    var rest := ['%', c];
    assert rest[2..] == [];
    assert WellFormed(rest);
    PlainText(conv, text, rest, args, 0, 0);
    assert FinalPos(conv, rest, args, 0, |text|) == FinalPos(conv, rest[2..], args, 0, |text| + 2);
  }

  // ---------------------------------------------------------------- the loop

  /** snprintf: the text and a NUL, for a text that fits. */
  method Print(buffer: array<char>, pos: nat, text: string)
    requires buffer.Length == BUFFER_SIZE && pos + |text| < BUFFER_SIZE
    modifies buffer
    ensures buffer[..pos + |text|] == old(buffer[..pos]) + text
  {
    for i := 0 to |text|
      invariant buffer[..pos + i] == old(buffer[..pos]) + text[..i]
    {
      buffer[pos + i] := text[i];
      assert text[..i + 1] == text[..i] + [text[i]];
    }
    assert text[..|text|] == text;
    buffer[pos + |text|] := '\0';
  }

  /** What the loop keeps: the text written so far and the rendering of the rest make up the message. */
  ghost predicate Halfway(conv: Conversion, args: Args, message: string, final: nat, written: string, rest: string,
                          k: nat) {
    && WellFormed(rest) && message == written + Render(conv, rest, args, k)
    && FinalPos(conv, rest, args, k, |written|) == final
  }

  lemma HalfwayStep(conv: Conversion, args: Args, message: string, final: nat, written: string, rest: string, k: nat,
                    text: string, length: nat)
    requires Halfway(conv, args, message, final, written, rest, k) && rest != [] && |written| < BUFFER_SIZE - 1
    requires text == Token(conv, rest, args, k) && length == TokenLength(rest)
    ensures Halfway(conv, args, message, final, written + text, rest[length..], k + Uses(rest))
    ensures final >= |written + text|
  {
    RenderTail(conv, rest, args, k);
    FinalPosAtLeast(conv, rest[length..], args, k + Uses(rest), |written + text|);
    Associates(written, text, Render(conv, rest[length..], args, k + Uses(rest)));
  }

  lemma HalfwayEnd(conv: Conversion, args: Args, message: string, final: nat, written: string, rest: string, k: nat)
    requires Halfway(conv, args, message, final, written, rest, k) && |written| < BUFFER_SIZE
    requires rest == [] || |written| >= BUFFER_SIZE - 1
    ensures |written| == final <= |message| && written == message[..final]
    ensures |message| < BUFFER_SIZE ==> written == message
  {
    FinalPosAtLeast(conv, rest, args, k, |written|);
  }

  function AtMostTen(k: nat): nat {
    if k < MAX_ARGS_CNT then k else MAX_ARGS_CNT
  }

  /** What one token prints, and how many arguments are used after it: the count stops at ten. */
  method NextToken(conv: Conversion, rest: string, args: Args, used: nat, ghost k: nat)
    returns (text: string, length: nat, used': nat)
    requires rest != [] && WellFormed(rest) && used == AtMostTen(k)
    ensures text == Token(conv, rest, args, k) && length == TokenLength(rest) && used' == AtMostTen(k + Uses(rest))
  {
    used' := used;
    if rest[0] != '%' {
      return [rest[0]], 1, used;
    }
    if rest[1] == '%' {
      return "%", 2, used;
    }
    var spec := rest[1];
    if !Supported(spec) {
      return ['%', spec], 2, used;
    }
    if used >= MAX_ARGS_CNT {
      return "<missing>", 2, used;
    }
    return conv(spec, args[used]), 2, used + 1;
  }

  /** One round of the loop, for the token at the head of `rest`; it throws where the token leads past the buffer. */
  method PrintToken(conv: Conversion, rest: string, args: Args, used: nat, buffer: array<char>, pos: nat,
                    ghost message: string, ghost final: nat, ghost written: string, ghost k: nat)
    returns (r: Outcome<()>, rest': string, used': nat, pos': nat, ghost written': string)
    requires rest != [] && buffer.Length == BUFFER_SIZE && pos == |written| < BUFFER_SIZE - 1
             && buffer[..pos] == written
    requires Halfway(conv, args, message, final, written, rest, k) && used == AtMostTen(k)
    modifies buffer
    ensures r.Thrown? ==> final >= BUFFER_SIZE
    ensures r.Returned? ==> |rest'| < |rest| && pos' == |written'| < BUFFER_SIZE && buffer[..pos'] == written'
    ensures r.Returned? ==> Halfway(conv, args, message, final, written', rest', k + Uses(rest))
    ensures used' == AtMostTen(k + Uses(rest))
  {
    var text, length;
    text, length, used' := NextToken(conv, rest, args, used, k);
    rest', written', pos' := rest[length..], written + text, pos + |text|;
    HalfwayStep(conv, args, message, final, written, rest, k, text, length);
    if pos' >= BUFFER_SIZE {
      return Thrown, rest', used', pos', written';
    }
    Print(buffer, pos, text);
    r := Returned(());
  }

  /**
  Formats into the buffer.  Thrown stands for a write past its end, which happens exactly for messages that do not
  fit; otherwise the message, or the part of it that fills the buffer, is there with its NUL.
  */
  method Format(conv: Conversion, fmt: string, args: Args, buffer: array<char>) returns (r: Outcome<nat>)
    requires WellFormed(fmt) && buffer.Length == BUFFER_SIZE
    modifies buffer
    ensures r.Returned? <==> Fits(conv, fmt, args)
    ensures r.Returned? ==>
              && r.value == FinalPos(conv, fmt, args, 0, 0) <= |Render(conv, fmt, args, 0)| && r.value < 1024
              && buffer[..r.value] == Render(conv, fmt, args, 0)[..r.value] && buffer[r.value] == '\0'
              && (r.value < 1023 ==> r.value == |Render(conv, fmt, args, 0)|)
  {
    var pos, rest, used := 0, fmt, 0;
    ghost var message, final := Render(conv, fmt, args, 0), FinalPos(conv, fmt, args, 0, 0);
    ghost var k: nat, written := 0, "";
    assert "" + message == message;
    InsideExactly(conv, fmt, args);
    while rest != [] && pos < BUFFER_SIZE - 1
      invariant used == AtMostTen(k) && pos == |written| < BUFFER_SIZE && buffer[..pos] == written
      invariant Halfway(conv, args, message, final, written, rest, k)
      decreases |rest|
    {
      ghost var uses := Uses(rest);
      var printed;
      printed, rest, used, pos, written := PrintToken(conv, rest, args, used, buffer, pos, message, final, written, k);
      if printed.Thrown? {
        return Thrown;
      }
      k := k + uses;
    }
    HalfwayEnd(conv, args, message, final, written, rest, k);
    LoopStops(conv, args, message, final, written, rest, k);
    buffer[pos] := '\0';
    return Returned(pos);
  }

  /** Short of the last place the loop only stops when nothing is left. */
  lemma LoopStops(conv: Conversion, args: Args, message: string, final: nat, written: string, rest: string, k: nat)
    requires Halfway(conv, args, message, final, written, rest, k) && (rest == [] || |written| >= BUFFER_SIZE - 1)
    ensures |written| < BUFFER_SIZE - 1 ==> |written| == |message|
  {
  }

  /** A whole event: a zeroed buffer, the kernel's format and arguments. */
  method FormatEvent(fmt: string, args: Args) returns (buffer: array<char>, r: Outcome<nat>)
    requires WellFormed(fmt)
    ensures fresh(buffer) && buffer.Length == 1024
    ensures r.Returned? <==> Fits(CONVERSIONS, fmt, args)
    ensures |Render(CONVERSIONS, fmt, args, 0)| < 1024 ==>
              && r.Returned? && r.value < 1024
              && buffer[..r.value] == Render(CONVERSIONS, fmt, args, 0) && buffer[r.value] == '\0'
  {
    buffer := new char[BUFFER_SIZE](_ => '\0');
    r := Format(CONVERSIONS, fmt, args, buffer);
    if |Render(CONVERSIONS, fmt, args, 0)| < BUFFER_SIZE {
      ShortMessagesFit(CONVERSIONS, fmt, args);
    }
  }
}
