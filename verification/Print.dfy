/** The formatter: loops that append to a bounded buffer, proved to leave the truncated rendering. */
module Print {
  import opened Memory
  import opened Numerals
  import opened Format

  // ---- Truncation -------------------------------------------------------------------------------------------

  function Min(a: nat, b: nat): nat { if a < b then a else b }

  function Trunc(s: string, len: nat): string { s[..Min(|s|, len)] }

  /** buffer_t: characters stored in place and how many there are. */
  class Buffer {
    const data: array<char>
    var sz: nat

    constructor (d: array<char>)
      ensures data == d && sz == 0
    {
      data := d;
      sz := 0;
    }

    /** The buffer holds text cut at len; from there on it is still as in was. */
    ghost predicate Shows(text: string, len: nat, was: seq<char>)
      reads this, data
    {
      && len <= data.Length == |was| && sz == Min(|text|, len)
      && data[..] == Trunc(text, len) + was[sz..]
    }

    /** __buf_add */
    method Add(len: nat, c: char, ghost text: string, ghost was: seq<char>)
      requires Shows(text, len, was)
      modifies this, data
      ensures Shows(text + [c], len, was)
    {
      if sz < len {
        ghost var before := data[..];
        data[sz] := c;
        sz := sz + 1;
        assert data[..] == before[sz - 1 := c];
        assert Trunc(text + [c], len) == Trunc(text, len) + [c];
      } else {
        assert Trunc(text + [c], len) == Trunc(text, len);
      }
    }

    /** __format_add_str: up to the NUL. */
    method AddStr(len: nat, s: string, ghost text: string, ghost was: seq<char>)
      requires Shows(text, len, was)
      modifies this, data
      ensures Shows(text + s, len, was)
    {
      var i := 0;
      assert text + s[..0] == text;
      while i < |s|
        invariant 0 <= i <= |s| && Shows(text + s[..i], len, was)
      {
        assert text + s[..i + 1] == (text + s[..i]) + [s[i]];
        Add(len, s[i], text + s[..i], was);
        i := i + 1;
      }
      assert s[..|s|] == s;
    }

    /** Emits rep[n-1], ..., rep[0]: the digits were produced last first. */
    method AddReversed(len: nat, rep: array<char>, n: nat, ghost text: string, ghost was: seq<char>)
      requires Shows(text, len, was) && n <= rep.Length && rep != data
      modifies this, data
      ensures Shows(text + Reversed(rep[..n]), len, was)
    {
      var k := n;
      ghost var r := rep[..n];
      ReversedLength(r);
      assert text + Reversed(r)[..0] == text;
      while k > 0
        invariant 0 <= k <= n && rep[..n] == r && |Reversed(r)| == n
        invariant Shows(text + Reversed(r)[..n - k], len, was)
      {
        k := k - 1;
        ReversedNext(r, n - k - 1, text);
        Add(len, rep[k], text + Reversed(r)[..n - k - 1], was);
      }
      assert Reversed(r)[..n] == Reversed(r);
    }

    /** __format_add_bin */
    method AddBin(len: nat, value: U64, n: nat, ghost text: string, ghost was: seq<char>)
      requires Shows(text, len, was) && n <= 64
      modifies this, data
      ensures Shows(text + Bin(value, n), len, was)
    {
      var i := 0;
      assert text + "" == text;
      while i < n
        invariant 0 <= i <= n && Shows(text + Bin(Shifted(value, n - i), i), len, was)
      {
        var bit := Shifted(value, n - i - 1) % 2;
        BinStep(value, n - i - 1, i, text);
        Add(len, if bit == 1 then '1' else '0', text + Bin(Shifted(value, n - i), i), was);
        i := i + 1;
      }
    }

    /** The digit loop of __format_add_idec and __format_add_udec, into the 24-byte scratch array. */
    method DecLoop(value: int) returns (rep: array<char>, n: nat)
      requires -TWO_63 <= value < TWO_64
      ensures fresh(rep) && n <= rep.Length == 24 && Reversed(rep[..n]) == DecDigits(value)
    {
      rep := new char[24](_ => '\0');
      n := 0;
      var v := value;
      TwentyDigits();
      assert rep[..0] == [];
      while v != 0
        invariant n <= 20 && Fits(v, 20 - n)
        invariant DecDigits(v) + Reversed(rep[..n]) == DecDigits(value)
        decreases if v >= 0 then v else -v
      {
        ghost var before := rep[..n];
        QuotientFits(v, 20 - n);
        rep[n] := (48 + CMod(v, 10)) as char;
        assert rep[..n + 1] == before + [rep[n]];
        DigitMoved(v, before, rep[n], DecDigits(value));
        v := CDiv(v, 10);
        n := n + 1;
      }
      assert "" + Reversed(rep[..n]) == Reversed(rep[..n]);
    }

    /** __format_add_idec */
    method AddIdec(len: nat, value: S64, ghost text: string, ghost was: seq<char>)
      requires Shows(text, len, was)
      modifies this, data
      ensures Shows(text + IDec(value), len, was)
    {
      if value == 0 {
        Add(len, '0', text, was);
        return;
      }
      if value < 0 {
        Add(len, '-', text, was);
        var rep, n := DecLoop(Negate(value));
        AddReversed(len, rep, n, text + "-", was);
        assert text + "-" + DecDigits(Negate(value)) == text + ("-" + DecDigits(Negate(value)));
      } else {
        var rep, n := DecLoop(value);
        AddReversed(len, rep, n, text, was);
      }
    }

    /** __format_add_udec */
    method AddUdec(len: nat, value: U64, ghost text: string, ghost was: seq<char>)
      requires Shows(text, len, was)
      modifies this, data
      ensures Shows(text + UDec(value), len, was)
    {
      if value == 0 {
        Add(len, '0', text, was);
        return;
      }
      var rep, n := DecLoop(value);
      AddReversed(len, rep, n, text, was);
    }

    /** The digit loop of uint64_to_hex, into the 16-byte scratch array. */
    method HexLoop(value: U64, precision: Word) returns (rep: array<char>, rsz: nat)
      ensures fresh(rep) && rsz <= rep.Length == 16 && Reversed(rep[..rsz]) == Hex(value, precision)
    {
      rep := new char[16](_ => '\0');
      rsz := 0;
      var limited := 1 <= precision <= 16;
      var p: int := precision;
      if !limited { p := 0xffff_ffff; }
      var v: nat := value;
      assert rep[..0] == "";
      HexStart(value, precision);
      while p != 0 && !(p > 16 && v == 0 && rsz != 0)
        invariant 0 <= rsz <= 16 && 0 <= p == (if limited then precision else 0xffff_ffff) - rsz
        invariant HexSofar(v, precision, rep[..rsz], Hex(value, precision))
        decreases p
      {
        ghost var before := rep[..rsz];
        HexStep(v, precision, before, Hex(value, precision));
        rep[rsz] := Digit(v % 16);
        assert rep[..rsz + 1] == before + [Digit(v % 16)];
        v := v / 16;
        rsz := rsz + 1;
        p := p - 1;
      }
      HexEnd(v, precision, rep[..rsz], Hex(value, precision));
    }

    /** uint64_to_hex: the count returned is that of the digits produced, whether or not they fit. */
    method AddHex(len: nat, value: U64, precision: Word, ghost text: string, ghost was: seq<char>) returns (count: nat)
      requires Shows(text, len, was)
      modifies this, data
      ensures Shows(text + Hex(value, precision), len, was) && count == |Hex(value, precision)|
    {
      var rep, rsz := HexLoop(value, precision);
      ReversedLength(rep[..rsz]);
      count := rsz;
      AddReversed(len, rep, rsz, text, was);
    }
  }

  // ---- Steps of the digit loops -----------------------------------------------------------------------------------

  lemma DigitMoved(v: int, done: string, c: char, all: string)
    requires v != 0 && c == (48 + CMod(v, 10)) as char && DecDigits(v) + Reversed(done) == all
    ensures DecDigits(CDiv(v, 10)) + Reversed(done + [c]) == all
  {
    ReversedSnoc(done, c);
    assert DecDigits(v) == DecDigits(CDiv(v, 10)) + [c];
  }

  /** The digits uint64_to_hex has still to produce after rsz of them, v being left. */
  function Remaining(v: nat, precision: nat, rsz: nat): string {
    if 1 <= precision <= 16 then (if rsz <= precision then Fixed(v, precision - rsz, 16) else "")
    else if rsz > 0 && v == 0 then ""
    else Shortest(v, 16)
  }

  lemma MoreToCome(v: nat, precision: nat, rsz: nat)
    requires rsz <= 16 && v < Pow(16, 16 - rsz)
    requires if 1 <= precision <= 16 then rsz < precision else v != 0 || rsz == 0
    ensures rsz < 16
  {
    assert Pow(16, 0) == 1;
  }

  lemma ShortestUnrolled(v: nat)
    ensures Shortest(v, 16) == (if v / 16 == 0 then "" else Shortest(v / 16, 16)) + [Digit(v % 16)]
  {
  }

  lemma RemainingStep(v: nat, precision: nat, rsz: nat)
    requires if 1 <= precision <= 16 then rsz < precision else v != 0 || rsz == 0
    ensures Remaining(v, precision, rsz) == Remaining(v / 16, precision, rsz + 1) + [Digit(v % 16)]
  {
    if !(1 <= precision <= 16) { ShortestUnrolled(v); }
  }

  lemma CharMoved(left: string, c: char, done: string)
    ensures (left + [c]) + Reversed(done) == left + Reversed(done + [c])
  {
    ReversedSnoc(done, c);
  }

  ghost predicate HexSofar(v: nat, precision: nat, done: string, all: string) {
    |done| <= 16 && v < Pow(16, 16 - |done|) && Remaining(v, precision, |done|) + Reversed(done) == all
  }

  lemma HexStart(v: U64, precision: nat)
    ensures HexSofar(v, precision, "", Hex(v, precision))
  {
    Sixteens();
  }

  lemma HexStep(v: nat, precision: nat, done: string, all: string)
    requires if 1 <= precision <= 16 then |done| < precision else v != 0 || |done| == 0
    requires HexSofar(v, precision, done, all)
    ensures |done| < 16 && HexSofar(v / 16, precision, done + [Digit(v % 16)], all)
  {
    var rsz := |done|;
    MoreToCome(v, precision, rsz);
    QuotientBound(v, 16, 16 - rsz);
    RemainingStep(v, precision, rsz);
    CharMoved(Remaining(v / 16, precision, rsz + 1), Digit(v % 16), done);
  }

  lemma HexEnd(v: nat, precision: nat, done: string, all: string)
    requires if 1 <= precision <= 16 then |done| == precision else v == 0 && |done| > 0
    requires HexSofar(v, precision, done, all)
    ensures Reversed(done) == all
  {
    assert Remaining(v, precision, |done|) == "";
  }

  lemma BinStep(v: nat, k: nat, i: nat, text: string)
    ensures text + Bin(Shifted(v, k), i + 1) ==
      (text + Bin(Shifted(v, k + 1), i)) + [if Shifted(v, k) % 2 == 1 then '1' else '0']
  {
    assert Bin(Shifted(v, k), i + 1) == Bin(Shifted(v, k) / 2, i) + [Digit(Shifted(v, k) % 2)];
  }

  // ---- Digits in reverse -----------------------------------------------------------------------------------------

  function Reversed(s: string): string {
    if s == "" then "" else [s[|s| - 1]] + Reversed(s[..|s| - 1])
  }

  lemma {:induction false} ReversedLength(s: string)
    ensures |Reversed(s)| == |s|
    decreases |s|
  {
    if s != "" { ReversedLength(s[..|s| - 1]); }
  }

  lemma {:induction false} ReversedAt(s: string, k: nat)
    requires k < |s|
    ensures |Reversed(s)| == |s| && Reversed(s)[k] == s[|s| - 1 - k]
    decreases |s|
  {
    ReversedLength(s);
    if k > 0 { ReversedAt(s[..|s| - 1], k - 1); }
  }

  lemma ReversedNext(s: string, k: nat, text: string)
    requires k < |s|
    ensures |Reversed(s)| == |s|
    ensures text + Reversed(s)[..k + 1] == (text + Reversed(s)[..k]) + [s[|s| - 1 - k]]
  {
    ReversedAt(s, k);
  }

  lemma ReversedSnoc(s: string, c: char)
    ensures Reversed(s + [c]) == [c] + Reversed(s)
  {
    assert (s + [c])[..|s|] == s;
  }

  // ---- Sizes ---------------------------------------------------------------------------------------------------------

  /** v >> n */
  function Shifted(v: nat, n: nat): nat {
    if n == 0 then v else Shifted(v, n - 1) / 2
  }

  lemma TwentyDigits()
    ensures TWO_64 < Pow(10, 20)
  {
    assert Pow(10, 5) == 10_0000;
    assert Pow(10, 10) == 100_0000_0000;
    assert Pow(10, 15) == 1000_0000_0000_0000;
  }

  predicate Fits(v: int, n: nat) { 0 - Pow(10, n) < v < Pow(10, n) }

  lemma QuotientFits(v: int, n: nat)
    requires v != 0 && Fits(v, n)
    ensures n > 0 && Fits(CDiv(v, 10), n - 1)
  {
    assert Pow(10, 0) == 1;
    if v >= 0 { QuotientBound(v, 10, n); } else { QuotientBound(-v, 10, n); }
  }
}
