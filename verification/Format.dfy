/** What the kernel's printf formats mean: an unbounded rendering, as a state machine over the
    characters of the format and a stream of argument words. */
module Format {
  import opened Wrappers
  import opened Memory
  import opened Numerals

  /** The words on the stack after the last named parameter; va_arg just reads on. */
  type Args = nat -> Word

  const TWO_32 := 0x1_0000_0000
  const TWO_63 := 0x8000_0000_0000_0000
  const TWO_64 := 0x1_0000_0000_0000_0000

  type U64 = x: int | 0 <= x < TWO_64
  type S64 = x: int | -TWO_63 <= x < TWO_63

  /** Local state of the loop: inside a conversion, seen one 'l', operand size in bytes. */
  datatype Mode = Mode(interp: bool, lng: bool, size: nat)

  const START := Mode(false, false, 4)

  // ---- Numbers --------------------------------------------------------------------------------------------

  /** Division and remainder of C: towards zero. */
  function CDiv(a: int, b: int): int
    requires b > 0
  {
    if a >= 0 then a / b else -((-a) / b)
  }

  function CMod(a: int, b: int): (r: int)
    requires b > 0
    ensures -b < r < b
  {
    if a >= 0 then a % b else -((-a) % b)
  }

  /** Negation of a 64-bit value as the machine does it: the least value is its own negative. */
  function Negate(v: S64): S64 {
    if v == -TWO_63 then v else -v
  }

  /** Characters '0' + v%10 with the last digit last; nothing for 0. */
  function DecDigits(v: int): string
    decreases if v >= 0 then v else -v
  {
    if v == 0 then "" else DecDigits(CDiv(v, 10)) + [(48 + CMod(v, 10)) as char]
  }

  function IDec(v: S64): string {
    if v == 0 then "0"
    else if v < 0 then "-" + DecDigits(Negate(v))
    else DecDigits(v)
  }

  function UDec(v: U64): string {
    if v == 0 then "0" else DecDigits(v)
  }

  /** precision 0 or above 16 asks for the shortest numeral. */
  function Hex(v: U64, precision: nat): string {
    if 1 <= precision <= 16 then Fixed(v, precision, 16) else Shortest(v, 16)
  }

  function Bin(v: nat, n: nat): string { Fixed(v, n, 2) }

  // ---- Arguments ------------------------------------------------------------------------------------------

  function Arg64(args: Args, i: nat): U64 { args(i) + TWO_32 * args(i + 1) }

  /** v reduced to a number of bits and read as two's complement. */
  function Signed(v: int, range: nat): int
    requires range > 0
  {
    if v % range >= range / 2 then v % range - range else v % range
  }

  function SignedArg(args: Args, i: nat, size: nat): S64 {
    if size >= 8 then Signed(Arg64(args, i), TWO_64)
    else if size == 4 then Signed(args(i), TWO_32)
    else if size == 2 then Signed(args(i), 0x1_0000)
    else Signed(args(i), 0x100)
  }

  function UnsignedArg(args: Args, i: nat, size: nat): U64 {
    if size >= 8 then Arg64(args, i)
    else if size == 4 then args(i)
    else if size == 2 then args(i) % 0x1_0000
    else args(i) % 0x100
  }

  function Words(size: nat): nat { if size >= 8 then 2 else 1 }

  // ---- One character of the format --------------------------------------------------------------------------

  /** Arguments and the strings they may point to: strings(p) is the text at p up to its NUL. */
  datatype Input = Input(args: Args, strings: Word -> string)

  datatype Action = Emit(text: string, next: nat, mode: Mode) | Unsupported(c: char)

  predicate IsDigit(c: char) { '0' <= c <= '9' }

  /** A conversion character: its text and how many argument words it takes. */
  function Convert(c: char, x: Input, i: nat, size: nat): Option<(string, nat)> {
    if c == 's' then Some((x.strings(x.args(i)), 1))
    else if c == 'c' then Some(([(x.args(i) % 0x100) as char], 1))
    else if c == 'b' then Some((Bin(x.args(i), 32), 1))
    else if c == 'B' then Some((Bin(Arg64(x.args, i), 64), 2))
    else if c == 'd' || c == 'i' then Some((IDec(SignedArg(x.args, i, size)), Words(size)))
    else if c == 'u' then Some((UDec(UnsignedArg(x.args, i, size)), Words(size)))
    else if c == 'x' then Some((Hex(UnsignedArg(x.args, i, size), 0), Words(size)))
    else if c == 'D' then Some((IDec(Signed(Arg64(x.args, i), TWO_64)), 2))
    else if c == 'X' then Some((Hex(Arg64(x.args, i), 0), 2))
    else if c == 'p' then Some(("0x" + Hex(x.args(i), 0), 1))
    else if c == '%' then Some(("%", 0))
    else None
  }

  function Act(c: char, x: Input, i: nat, m: Mode): Action {
    if !m.interp then
      if c == '%' then Emit("", i, Mode(true, m.lng, 4)) else Emit([c], i, m)
    else if c == 'l' then Emit("", i, if m.lng then m.(size := 8) else m.(lng := true))
    else if c == 'h' then Emit("", i, m.(size := m.size / 2))
    else if IsDigit(c) then Emit("", i, m)
    else
      match Convert(c, x, i, m.size)
      case None => Unsupported(c)
      case Some((text, words)) => Emit(text, i + words, Mode(false, false, m.size))
  }

  // ---- The rendering ------------------------------------------------------------------------------------------

  datatype Rendering = Rendered(text: string, next: nat, mode: Mode) | Panics(text: string, c: char)

  function After(text: string, r: Rendering): Rendering {
    match r
    case Rendered(t, i, m) => Rendered(text + t, i, m)
    case Panics(t, c) => Panics(text + t, c)
  }

  function Render(f: string, x: Input, i: nat, m: Mode): Rendering {
    if f == "" then Rendered("", i, m)
    else
      match Act(f[0], x, i, m)
      case Unsupported(c) => Panics("", c)
      case Emit(text, j, m') => After(text, Render(f[1..], x, j, m'))
  }

  lemma AfterAfter(s: string, t: string, r: Rendering)
    ensures After(s, After(t, r)) == After(s + t, r)
  {
    assert s + (t + r.text) == (s + t) + r.text;
  }

  /** Rendering is compositional: the rest of a format goes on where its beginning stopped. */
  lemma {:induction false} RenderConcat(f: string, g: string, x: Input, i: nat, m: Mode)
    ensures Render(f + g, x, i, m) ==
      match Render(f, x, i, m)
      case Panics(t, c) => Panics(t, c)
      case Rendered(t, j, m') => After(t, Render(g, x, j, m'))
  {
    if f == "" {
      assert f + g == g;
      assert After("", Render(g, x, i, m)) == Render(g, x, i, m) by { assert "" + Render(g, x, i, m).text == Render(g, x, i, m).text; }
    } else {
      assert (f + g)[1..] == f[1..] + g;
      match Act(f[0], x, i, m)
      case Unsupported(_) =>
      case Emit(text, j, m') =>
        RenderConcat(f[1..], g, x, j, m');
        match Render(f[1..], x, j, m')
        case Panics(_, _) =>
        case Rendered(t, j', m'') => AfterAfter(text, t, Render(g, x, j', m''));
    }
  }

  /** 'lng' is only ever set inside a conversion. */
  predicate Tidy(m: Mode) { m.lng ==> m.interp }

  lemma {:induction false} TidyKept(f: string, x: Input, i: nat, m: Mode)
    requires Tidy(m)
    ensures Render(f, x, i, m).Rendered? ==> Tidy(Render(f, x, i, m).mode)
  {
    if f != "" {
      match Act(f[0], x, i, m)
      case Unsupported(_) =>
      case Emit(_, j, m') => TidyKept(f[1..], x, j, m');
    }
  }

  /** Two results that print and consume the same; only the leftover operand size may differ. */
  predicate SameOutput(r: Rendering, s: Rendering) {
    match (r, s)
    case (Panics(t, c), Panics(u, d)) => t == u && c == d
    case (Rendered(t, i, m), Rendered(u, j, n)) => t == u && i == j && m.interp == n.interp && (m.interp ==> m == n)
    case _ => false
  }

  /** Outside a conversion the operand size of an earlier one plays no role. */
  lemma {:induction false} SizeForgotten(f: string, x: Input, i: nat, size: nat)
    ensures SameOutput(Render(f, x, i, Mode(false, false, size)), Render(f, x, i, START))
  {
    if f != "" && f[0] != '%' { SizeForgotten(f[1..], x, i, size); }
  }

  /** A format that ends outside a conversion can be cut there: what follows is rendered as a format of
      its own on the remaining arguments. */
  lemma FormatsConcatenate(f: string, g: string, x: Input, i: nat)
    requires Render(f, x, i, START).Rendered? && !Render(f, x, i, START).mode.interp
    ensures var r := Render(f, x, i, START);
      SameOutput(Render(f + g, x, i, START), After(r.text, Render(g, x, r.next, START)))
  {
    RenderConcat(f, g, x, i, START);
    TidyKept(f, x, i, START);
    var r := Render(f, x, i, START);
    SizeForgotten(g, x, r.next, r.mode.size);
  }

  /** Text without a '%' prints itself. */
  lemma {:induction false} PlainText(f: string, x: Input, i: nat, size: nat)
    requires '%' !in f
    ensures Render(f, x, i, Mode(false, false, size)) == Rendered(f, i, Mode(false, false, size))
  {
    if f != "" { PlainText(f[1..], x, i, size); }
  }

  /** Width and precision digits removed. */
  function WithoutDigits(f: string, interp: bool): string {
    if f == "" then ""
    else if interp && IsDigit(f[0]) then WithoutDigits(f[1..], true)
    else [f[0]] + WithoutDigits(f[1..], if interp then f[0] == 'l' || f[0] == 'h' else f[0] == '%')
  }

  /** Digits inside conversions are ignored. */
  lemma {:induction false} DigitsIgnored(f: string, x: Input, i: nat, m: Mode)
    ensures Render(WithoutDigits(f, m.interp), x, i, m) == Render(f, x, i, m)
  {
    if f != "" {
      var g := WithoutDigits(f, m.interp);
      if m.interp && IsDigit(f[0]) {
        DigitsIgnored(f[1..], x, i, m);
        assert Act(f[0], x, i, m) == Emit("", i, m);
        assert After("", Render(f[1..], x, i, m)) == Render(f[1..], x, i, m) by {
          assert "" + Render(f[1..], x, i, m).text == Render(f[1..], x, i, m).text;
        }
      } else {
        assert g[0] == f[0] && g[1..] == WithoutDigits(f[1..], if m.interp then f[0] == 'l' || f[0] == 'h' else f[0] == '%');
        match Act(f[0], x, i, m)
        case Unsupported(_) =>
        case Emit(_, j, m') => DigitsIgnored(f[1..], x, j, m');
      }
    }
  }

  // ---- What one directive means --------------------------------------------------------------------------------

  function Count(s: string, c: char): nat {
    if s == "" then 0 else Count(s[..|s| - 1], c) + (if s[|s| - 1] == c then 1 else 0)
  }

  /** The part of s after its last c. */
  function AfterLast(s: string, c: char): string {
    if s == "" || s[|s| - 1] == c then "" else AfterLast(s[..|s| - 1], c) + [s[|s| - 1]]
  }

  function Halved(n: nat, k: nat): nat {
    if k == 0 then n else Halved(n, k - 1) / 2
  }

  /** Operand size in bytes that modifiers ask for: 4, or 8 from the second 'l' on, halved by every 'h'
      that comes after. So "" and "l" give 4, "ll" 8, "h" 2, "hh" 1. */
  function OperandSize(p: string): nat {
    SizeBy(Count(p, 'l'), Count(p, 'h'), HsAfter(p))
  }

  /** The size for so many 'l', 'h', and 'h' after the last 'l'. */
  function SizeBy(ls: nat, hs: nat, after: nat): nat {
    if ls >= 2 then Halved(8, after) else Halved(4, hs)
  }

  lemma SizeByH(ls: nat, hs: nat, after: nat)
    ensures SizeBy(ls, hs + 1, after + 1) == SizeBy(ls, hs, after) / 2
  {
  }

  lemma SizeByL(ls: nat, hs: nat, after: nat)
    ensures SizeBy(ls + 1, hs, 0) == if ls >= 1 then 8 else SizeBy(ls, hs, after)
  {
  }

  predicate IsModifier(c: char) { c == 'l' || c == 'h' || IsDigit(c) }

  lemma CountSnoc(p: string, c: char, d: char)
    ensures Count(p + [c], d) == Count(p, d) + (if c == d then 1 else 0)
  {
    assert (p + [c])[..|p|] == p;
  }

  lemma AfterLastSnoc(p: string, c: char, d: char)
    ensures AfterLast(p + [c], d) == if c == d then "" else AfterLast(p, d) + [c]
  {
    assert (p + [c])[..|p|] == p;
  }

  /** 'h's after the last 'l'. */
  function HsAfter(p: string): nat { Count(AfterLast(p, 'l'), 'h') }

  lemma HsAfterSnoc(p: string, c: char)
    ensures HsAfter(p + [c]) == if c == 'l' then 0 else HsAfter(p) + (if c == 'h' then 1 else 0)
  {
    AfterLastSnoc(p, c, 'l');
    CountSnoc(AfterLast(p, 'l'), c, 'h');
  }

  lemma ActModifier(c: char, x: Input, i: nat, lng: bool, size: nat)
    requires IsModifier(c)
    ensures Act(c, x, i, Mode(true, lng, size)) ==
      Emit("", i, Mode(true, lng || c == 'l', if c == 'l' && lng then 8 else if c == 'h' then size / 2 else size))
  {
  }

  lemma SizeFrom(p: string, c: char, q: string)
    requires IsModifier(c)
    requires Count(q, 'l') == Count(p, 'l') + (if c == 'l' then 1 else 0)
    requires Count(q, 'h') == Count(p, 'h') + (if c == 'h' then 1 else 0)
    requires HsAfter(q) == if c == 'l' then 0 else HsAfter(p) + (if c == 'h' then 1 else 0)
    ensures OperandSize(q) ==
      if c == 'l' && Count(p, 'l') >= 1 then 8 else if c == 'h' then OperandSize(p) / 2 else OperandSize(p)
  {
    SizeByL(Count(p, 'l'), Count(p, 'h'), HsAfter(p));
    SizeByH(Count(p, 'l'), Count(p, 'h'), HsAfter(p));
  }

  lemma SizeSnoc(p: string, c: char)
    requires IsModifier(c)
    ensures OperandSize(p + [c]) ==
      if c == 'l' && Count(p, 'l') >= 1 then 8 else if c == 'h' then OperandSize(p) / 2 else OperandSize(p)
  {
    CountSnoc(p, c, 'l');
    CountSnoc(p, c, 'h');
    HsAfterSnoc(p, c);
    SizeFrom(p, c, p + [c]);
  }

  lemma ModifierStep(p: string, c: char, x: Input, i: nat)
    requires IsModifier(c)
    ensures Act(c, x, i, Mode(true, Count(p, 'l') >= 1, OperandSize(p))) ==
      Emit("", i, Mode(true, Count(p + [c], 'l') >= 1, OperandSize(p + [c])))
  {
    CountSnoc(p, c, 'l');
    SizeSnoc(p, c);
    ActModifier(c, x, i, Count(p, 'l') >= 1, OperandSize(p));
  }

  lemma {:induction false} ModifiersRead(p: string, x: Input, i: nat)
    requires forall k :: 0 <= k < |p| ==> IsModifier(p[k])
    ensures Render(p, x, i, Mode(true, false, 4)) == Rendered("", i, Mode(true, Count(p, 'l') >= 1, OperandSize(p)))
    decreases |p|
  {
    if p != "" {
      var q, c := p[..|p| - 1], p[|p| - 1];
      ModifiersRead(q, x, i);
      assert p == q + [c];
      RenderConcat(q, [c], x, i, Mode(true, false, 4));
      ModifierStep(q, c, x, i);
      assert [c][1..] == "";
    }
  }

  lemma RenderOne(c: char, x: Input, i: nat, m: Mode)
    ensures Render([c], x, i, m) ==
      match Act(c, x, i, m)
      case Unsupported(d) => Panics("", d)
      case Emit(t, j, m') => Rendered(t, j, m')
  {
    assert [c][1..] == "";
    match Act(c, x, i, m)
    case Unsupported(_) =>
    case Emit(t, j, m') => assert t + "" == t;
  }

  /** A whole directive: '%', any modifiers and digits, a character. The character decides the conversion,
      OperandSize the operand; with FormatsConcatenate this gives the meaning of every format. */
  lemma DirectiveMeaning(p: string, c: char, x: Input, i: nat)
    requires (forall k :: 0 <= k < |p| ==> IsModifier(p[k])) && !IsModifier(c)
    ensures Render(("%" + p) + [c], x, i, START) ==
      match Convert(c, x, i, OperandSize(p))
      case None => Panics("", c)
      case Some((text, words)) => Rendered(text, i + words, Mode(false, false, OperandSize(p)))
  {
    var m := Mode(true, Count(p, 'l') >= 1, OperandSize(p));
    ModifiersRead(p, x, i);
    RenderConcat("%", p, x, i, START);
    RenderOne('%', x, i, START);
    assert Render("%" + p, x, i, START) == Rendered("", i, m);
    RenderConcat("%" + p, [c], x, i, START);
    RenderOne(c, x, i, m);
    match Convert(c, x, i, OperandSize(p))
    case None =>
    case Some((text, _)) => assert "" + text == text;
  }

  // ---- Decimal numbers read back ---------------------------------------------------------------------------------

  lemma {:induction false} DecDigitsShortest(v: nat)
    requires v > 0
    ensures DecDigits(v) == Shortest(v, 10)
    decreases v
  {
    if v >= 10 { DecDigitsShortest(v / 10); }
    else { assert DecDigits(v / 10) == ""; }
  }

  /** The value of a decimal numeral with an optional minus sign. */
  function ParseInt(s: string): Option<int> {
    if s != "" && s[0] == '-' then
      if |s| > 1 && IsNumeral(s[1..], 10) then Some(-(Value(s[1..], 10) as int)) else None
    else if s != "" && IsNumeral(s, 10) then Some(Value(s, 10)) else None
  }

  lemma ParsesNumeral(s: string, v: nat)
    requires s != "" && IsNumeral(s, 10) && Value(s, 10) == v
    ensures ParseInt(s) == Some(v) && ParseInt("-" + s) == Some(-(v as int))
  {
    assert DigitValue(s[0]).Some?;
    assert ("-" + s)[0] == '-' && ("-" + s)[1..] == s;
  }

  lemma ParsesNothing(s: string)
    requires s != "" && DigitValue(s[|s| - 1]).None?
    ensures ParseInt("-" + s) == None
  {
    assert ("-" + s)[0] == '-' && ("-" + s)[1..] == s;
  }

  lemma DecDigitsParse(v: nat)
    requires v > 0
    ensures ParseInt(DecDigits(v)) == Some(v) && ParseInt("-" + DecDigits(v)) == Some(-(v as int))
    ensures NoLeadingZero(DecDigits(v))
  {
    DecDigitsShortest(v);
    ShortestValue(v, 10);
    ParsesNumeral(DecDigits(v), v);
  }

  lemma LeastDigits()
    ensures DecDigits(-TWO_63) != "" && DigitValue(DecDigits(-TWO_63)[|DecDigits(-TWO_63)| - 1]).None?
  {
    assert CMod(-TWO_63, 10) == -8;
  }

  lemma ZeroParses()
    ensures ParseInt("0") == Some(0) && NoLeadingZero("0")
  {
    ShortestValue(0, 10);
    assert Shortest(0, 10) == "0";
    ParsesNumeral("0", 0);
  }

  /** %d round trip: the text of every signed 64-bit value is its decimal numeral, except for the least
      one, whose negation leaves it negative so that characters below '0' come out. */
  lemma DecimalRoundTrip(v: S64)
    ensures ParseInt(IDec(v)) == Some(v) <==> v != -TWO_63
    ensures v != -TWO_63 ==> NoLeadingZero(if v < 0 then IDec(v)[1..] else IDec(v))
  {
    if v == 0 {
      ZeroParses();
    } else if v > 0 {
      DecDigitsParse(v);
    } else if v == -TWO_63 {
      LeastDigits();
      ParsesNothing(DecDigits(v));
    } else {
      DecDigitsParse(-v);
      assert ("-" + DecDigits(-v))[1..] == DecDigits(-v);
    }
  }

  /** %u round trip, without exception. */
  lemma UnsignedRoundTrip(v: U64)
    ensures ParseInt(UDec(v)) == Some(v) && NoLeadingZero(UDec(v))
  {
    if v == 0 { ZeroParses(); } else { DecDigitsParse(v); }
  }

  lemma Sixteens()
    ensures Pow(16, 16) == TWO_64
  {
    assert Pow(16, 4) == 0x1_0000;
    assert Pow(16, 8) == 0x1_0000_0000;
    assert Pow(16, 12) == 0x1_0000_0000_0000;
  }

  /** Hexadecimal round trip: a precision of 1 to 16 keeps exactly that many low digits, any other gives
      the shortest numeral; either fits the 16-byte scratch array. */
  lemma HexRoundTrip(v: U64, precision: nat)
    ensures IsNumeral(Hex(v, precision), 16) && 1 <= |Hex(v, precision)| <= 16
    ensures if 1 <= precision <= 16
      then |Hex(v, precision)| == precision && Value(Hex(v, precision), 16) == v % Pow(16, precision)
      else Value(Hex(v, precision), 16) == v && NoLeadingZero(Hex(v, precision))
  {
    if 1 <= precision <= 16 {
      FixedValue(v, precision, 16);
    } else {
      ShortestValue(v, 16);
      Sixteens();
      ShortestLength(v, 16, 16);
    }
  }

  /** Binary output is all n low bits. */
  lemma BinRoundTrip(v: U64, n: nat)
    ensures |Bin(v, n)| == n && IsNumeral(Bin(v, n), 2) && Value(Bin(v, n), 2) == v % Pow(2, n)
  {
    FixedValue(v, n, 2);
  }
}
