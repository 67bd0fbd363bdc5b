/** What each conversion prints and consumes, said of the argument words themselves: the numbers read back
    from the text, the bits, the characters. */
module Directives {
  import opened Wrappers
  import opened Memory
  import opened Numerals
  import opened Format

  predicate Modifiers(p: string) { forall k :: 0 <= k < |p| ==> IsModifier(p[k]) }

  /** '%', modifiers and digits, a conversion character. */
  function Directive(p: string, c: char): string { ("%" + p) + [c] }

  /** The directive prints text, takes n argument words and ends the conversion. */
  ghost predicate Prints(p: string, c: char, x: Input, i: nat, text: string, n: nat) {
    Render(Directive(p, c), x, i, START) == Rendered(text, i + n, Mode(false, false, OperandSize(p)))
  }

  // ---- Digits ---------------------------------------------------------------------------------------------

  /** The sixteen digits, and that nothing else is one. */
  lemma DigitTable(d: nat, c: char)
    requires d < 16
    ensures Digit(d) == "0123456789abcdef"[d]
    ensures DigitValue(c) == Some(d) <==> c == "0123456789abcdef"[d]
    ensures DigitValue(c) == None <==> c !in "0123456789abcdef"
  {
    var t := "0123456789abcdef";
    if DigitValue(c).Some? { assert t[DigitValue(c).value] == c; }
  }

  /** How numerals are read: each digit after the others, which count base times as much. */
  lemma NumeralRead(s: string, c: char, d: nat, base: nat)
    requires (base == 2 || base == 10 || base == 16) && IsNumeral(s, base) && d < base
    requires c as int == if d < 10 then '0' as int + d else 'a' as int + d - 10
    ensures IsNumeral(s + [c], base) && Value(s + [c], base) == Value(s, base) * base + d
    ensures IsNumeral("", base) && Value("", base) == 0
    ensures base == 10 ==> ParseInt(s + [c]) == Some(Value(s + [c], 10)) && ParseInt("-" + (s + [c])) == Some(-(Value(s + [c], 10) as int))
  {
    assert c == Digit(d);
    NumeralSnoc(s, d, base);
  }

  lemma NumeralSnoc(s: string, d: nat, base: nat)
    requires IsBase(base) && IsNumeral(s, base) && d < base
    ensures var t := s + [Digit(d)];
      && IsNumeral(t, base) && Value(t, base) == Value(s, base) * base + d
      && (base == 10 ==> ParseInt(t) == Some(Value(t, 10)) && ParseInt("-" + t) == Some(-(Value(t, 10) as int)))
  {
    ValueSnoc(s, d, base);
    if base == 10 { ParsesNumeral(s + [Digit(d)], Value(s + [Digit(d)], 10)); }
  }

  lemma {:induction false} FixedBit(v: nat, n: nat, k: nat)
    requires k < n
    ensures Fixed(v, n, 2)[n - 1 - k] == if Test(v, k) then '1' else '0'
    decreases n
  {
    if k > 0 { FixedBit(v / 2, n - 1, k - 1); }
  }

  /** One more modifier, in numbers. */
  lemma Sized(p: string, c: char, q: string, size: nat, ls: nat)
    requires IsModifier(c) && q == p + [c] && OperandSize(p) == size && Count(p, 'l') == ls
    ensures OperandSize(q) == if c == 'l' && ls >= 1 then 8 else if c == 'h' then size / 2 else size
    ensures Count(q, 'l') == ls + (if c == 'l' then 1 else 0)
  {
    SizeSnoc(p, c);
    CountSnoc(p, c, 'l');
  }

  lemma EmptySize()
    ensures OperandSize("") == 4 && Count("", 'l') == 0
  {
  }

  /** Operand sizes in bytes. */
  lemma OperandSizes()
    ensures OperandSize("") == 4 && OperandSize("8") == 4 && OperandSize("l") == 4 && OperandSize("ll") == 8
    ensures OperandSize("h") == 2 && OperandSize("hh") == 1 && OperandSize("llh") == 4 && OperandSize("hll") == 8
  {
    EmptySize();
    Sized("", '8', "8", 4, 0);
    Sized("", 'l', "l", 4, 0);
    Sized("l", 'l', "ll", 4, 1);
    Sized("ll", 'h', "llh", 8, 2);
    Sized("", 'h', "h", 4, 0);
    Sized("h", 'h', "hh", 2, 0);
    Sized("h", 'l', "hl", 2, 0);
    Sized("hl", 'l', "hll", 2, 1);
  }

  /** What may stand between '%' and the conversion character. */
  lemma ModifierSet(c: char)
    ensures IsModifier(c) <==> c in "lh0123456789"
  {
    var t := "lh0123456789";
    assert t[0] == 'l' && t[1] == 'h';
    if IsDigit(c) { assert t[2 + (c as int - 48)] == c; }
  }

  // ---- Operands -------------------------------------------------------------------------------------------

  lemma SignedBy(v: nat, range: nat, half: nat)
    requires range == 2 * half && half > 0
    ensures Signed(v, range) == if v % range < half then v % range else v % range - range
  {
  }

  lemma Whole(v: nat, range: nat)
    requires v < range
    ensures v % range == v
  {
  }

  lemma SignedArgIs(args: Args, i: nat, size: nat)
    ensures size >= 8 ==>
      var v := args(i) + 0x1_0000_0000 * args(i + 1);
      SignedArg(args, i, size) == if v < 0x8000_0000_0000_0000 then v else v - 0x1_0000_0000_0000_0000
    ensures size == 4 ==> SignedArg(args, i, size) == if args(i) < 0x8000_0000 then args(i) else args(i) - 0x1_0000_0000
    ensures size == 2 ==>
      var v := args(i) % 0x1_0000;
      SignedArg(args, i, size) == if v < 0x8000 then v else v - 0x1_0000
    ensures size < 8 && size != 4 && size != 2 ==>
      var v := args(i) % 0x100;
      SignedArg(args, i, size) == if v < 0x80 then v else v - 0x100
  {
    if size >= 8 {
      LongSigned(args, i);
    } else if size == 4 {
      SignedBy(args(i), TWO_32, 0x8000_0000);
      Whole(args(i), TWO_32);
    } else if size == 2 {
      SignedBy(args(i), 0x1_0000, 0x8000);
    } else {
      SignedBy(args(i), 0x100, 0x80);
    }
  }

  lemma LongSigned(args: Args, i: nat)
    ensures var v := args(i) + 0x1_0000_0000 * args(i + 1);
      Signed(Arg64(args, i), TWO_64) == if v < 0x8000_0000_0000_0000 then v else v - 0x1_0000_0000_0000_0000
  {
    SignedBy(Arg64(args, i), TWO_64, TWO_63);
    Whole(Arg64(args, i), TWO_64);
  }

  /** The 8, 4, 2 or 1 low bytes of an operand. */
  function Operand(x: Input, i: nat, size: nat): nat {
    if size >= 8 then x.args(i) + 0x1_0000_0000 * x.args(i + 1)
    else if size == 4 then x.args(i)
    else if size == 2 then x.args(i) % 0x1_0000
    else x.args(i) % 0x100
  }

  lemma OperandIs(x: Input, i: nat, size: nat)
    ensures UnsignedArg(x.args, i, size) == Operand(x, i, size)
  {
  }

  lemma Converted(p: string, c: char, x: Input, i: nat, text: string, n: nat)
    requires Modifiers(p) && !IsModifier(c) && Convert(c, x, i, OperandSize(p)) == Some((text, n))
    ensures Prints(p, c, x, i, text, n)
  {
    DirectiveMeaning(p, c, x, i);
  }

  // ---- Decimal --------------------------------------------------------------------------------------------

  /** %d and %i: the 8, 4, 2 or 1 low bytes of the operand as a signed number, whose numeral is the text. The one
      exception, the least 64-bit number, is in DecimalRoundTrip. */
  lemma SignedDirective(p: string, c: char, x: Input, i: nat) returns (text: string)
    requires Modifiers(p) && (c == 'd' || c == 'i')
    ensures Prints(p, c, x, i, text, if OperandSize(p) >= 8 then 2 else 1)
    ensures OperandSize(p) >= 8 ==>
      var v := x.args(i) + 0x1_0000_0000 * x.args(i + 1);
      v != 0x8000_0000_0000_0000 ==>
        ParseInt(text) == Some(if v < 0x8000_0000_0000_0000 then v else v - 0x1_0000_0000_0000_0000)
    ensures OperandSize(p) == 4 ==>
      ParseInt(text) == Some(if x.args(i) < 0x8000_0000 then x.args(i) else x.args(i) - 0x1_0000_0000)
    ensures OperandSize(p) == 2 ==>
      var v := x.args(i) % 0x1_0000;
      ParseInt(text) == Some(if v < 0x8000 then v else v - 0x1_0000)
    ensures OperandSize(p) < 8 && OperandSize(p) != 4 && OperandSize(p) != 2 ==>
      var v := x.args(i) % 0x100;
      ParseInt(text) == Some(if v < 0x80 then v else v - 0x100)
  {
    var v := SignedArg(x.args, i, OperandSize(p));
    text := IDec(v);
    Converted(p, c, x, i, text, if OperandSize(p) >= 8 then 2 else 1);
    SignedArgIs(x.args, i, OperandSize(p));
    DecimalRoundTrip(v);
  }

  /** %u: the same bytes as an unsigned number. */
  lemma UnsignedDirective(p: string, x: Input, i: nat) returns (text: string)
    requires Modifiers(p)
    ensures Prints(p, 'u', x, i, text, if OperandSize(p) >= 8 then 2 else 1)
    ensures ParseInt(text) == Some(Operand(x, i, OperandSize(p))) && NoLeadingZero(text)
  {
    var v := UnsignedArg(x.args, i, OperandSize(p));
    text := UDec(v);
    Converted(p, 'u', x, i, text, if OperandSize(p) >= 8 then 2 else 1);
    UnsignedRoundTrip(v);
    OperandIs(x, i, OperandSize(p));
  }

  /** %D: 64 bits, signed, whatever the modifiers. */
  lemma LongSignedDirective(p: string, x: Input, i: nat) returns (text: string)
    requires Modifiers(p)
    ensures Prints(p, 'D', x, i, text, 2)
    ensures var v := x.args(i) + 0x1_0000_0000 * x.args(i + 1);
      v != 0x8000_0000_0000_0000 ==>
        ParseInt(text) == Some(if v < 0x8000_0000_0000_0000 then v else v - 0x1_0000_0000_0000_0000)
  {
    var v := Signed(Arg64(x.args, i), TWO_64);
    LongSigned(x.args, i);
    text := IDec(v);
    Converted(p, 'D', x, i, text, 2);
    DecimalRoundTrip(v);
  }

  // ---- Hexadecimal and binary -----------------------------------------------------------------------------

  /** %x: the unsigned operand in base 16, without leading zeros. */
  lemma HexDirective(p: string, x: Input, i: nat) returns (text: string)
    requires Modifiers(p)
    ensures Prints(p, 'x', x, i, text, if OperandSize(p) >= 8 then 2 else 1)
    ensures IsNumeral(text, 16) && NoLeadingZero(text) && Value(text, 16) == Operand(x, i, OperandSize(p))
  {
    var v := UnsignedArg(x.args, i, OperandSize(p));
    text := Hex(v, 0);
    Converted(p, 'x', x, i, text, if OperandSize(p) >= 8 then 2 else 1);
    HexRoundTrip(v, 0);
    OperandIs(x, i, OperandSize(p));
  }

  /** %X: 64 bits. */
  lemma LongHexDirective(p: string, x: Input, i: nat) returns (text: string)
    requires Modifiers(p)
    ensures Prints(p, 'X', x, i, text, 2)
    ensures IsNumeral(text, 16) && NoLeadingZero(text) && Value(text, 16) == x.args(i) + 0x1_0000_0000 * x.args(i + 1)
  {
    text := Hex(Arg64(x.args, i), 0);
    Converted(p, 'X', x, i, text, 2);
    HexRoundTrip(Arg64(x.args, i), 0);
  }

  /** %p: a 32-bit word in base 16 after "0x". */
  lemma PointerDirective(p: string, x: Input, i: nat) returns (text: string)
    requires Modifiers(p)
    ensures Prints(p, 'p', x, i, "0x" + text, 1)
    ensures IsNumeral(text, 16) && NoLeadingZero(text) && Value(text, 16) == x.args(i)
  {
    text := Hex(x.args(i), 0);
    Converted(p, 'p', x, i, "0x" + text, 1);
    HexRoundTrip(x.args(i), 0);
  }

  /** %b: the 32 bits of a word, highest first. */
  lemma BinaryDirective(p: string, x: Input, i: nat) returns (text: string)
    requires Modifiers(p)
    ensures Prints(p, 'b', x, i, text, 1) && |text| == 32
    ensures forall k :: 0 <= k < 32 ==> text[31 - k] == if Test(x.args(i), k) then '1' else '0'
  {
    text := Bin(x.args(i), 32);
    Converted(p, 'b', x, i, text, 1);
    BitsOf(x.args(i), 32);
  }

  /** %B: the 64 bits of two words. */
  lemma LongBinaryDirective(p: string, x: Input, i: nat) returns (text: string)
    requires Modifiers(p)
    ensures Prints(p, 'B', x, i, text, 2) && |text| == 64
    ensures var v := x.args(i) + 0x1_0000_0000 * x.args(i + 1);
      forall k :: 0 <= k < 64 ==> text[63 - k] == if Test(v, k) then '1' else '0'
  {
    text := Bin(Arg64(x.args, i), 64);
    Converted(p, 'B', x, i, text, 2);
    BitsOf(Arg64(x.args, i), 64);
  }

  lemma BitsOf(v: nat, n: nat)
    ensures |Bin(v, n)| == n && forall k :: 0 <= k < n ==> Bin(v, n)[n - 1 - k] == if Test(v, k) then '1' else '0'
  {
    forall k | 0 <= k < n
      ensures Bin(v, n)[n - 1 - k] == if Test(v, k) then '1' else '0'
    {
      FixedBit(v, n, k);
    }
  }

  // ---- Text -----------------------------------------------------------------------------------------------

  /** %s prints the string pointed to, %c the low byte as a character, %% a percent sign and takes nothing. */
  lemma TextDirectives(p: string, x: Input, i: nat)
    requires Modifiers(p)
    ensures Prints(p, 's', x, i, x.strings(x.args(i)), 1)
    ensures Prints(p, 'c', x, i, [(x.args(i) % 0x100) as char], 1)
    ensures Prints(p, '%', x, i, "%", 0)
  {
    Converted(p, 's', x, i, x.strings(x.args(i)), 1);
    Converted(p, 'c', x, i, [(x.args(i) % 0x100) as char], 1);
    Converted(p, '%', x, i, "%", 0);
  }

  /** Any other character ends in a panic that names it. */
  lemma OtherDirective(p: string, c: char, x: Input, i: nat)
    requires Modifiers(p) && c !in "scbBdiuxDXp%lh0123456789"
    ensures Render(Directive(p, c), x, i, START) == Panics("", c)
  {
    var t := "scbBdiuxDXp%lh0123456789";
    assert t[0] == 's' && t[1] == 'c' && t[2] == 'b' && t[3] == 'B' && t[4] == 'd' && t[5] == 'i' && t[6] == 'u' && t[7] == 'x';
    assert t[8] == 'D' && t[9] == 'X' && t[10] == 'p' && t[11] == '%' && t[12] == 'l' && t[13] == 'h';
    NotADigit(c);
    DirectiveMeaning(p, c, x, i);
  }

  lemma NotADigit(c: char)
    ensures c !in "scbBdiuxDXp%lh0123456789" ==> !IsDigit(c)
  {
    var t := "scbBdiuxDXp%lh0123456789";
    if IsDigit(c) {
      var k := c as int - '0' as int;
      assert t[14 + k] == c;
    }
  }
}
