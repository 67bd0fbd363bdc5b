/** Flat byte-addressed memory of an x86-32 machine, with little-endian dword access. */
module Memory {
  import Numerals

  const SPACE := 0x1_0000_0000

  type Byte = b: int | 0 <= b < 0x100
  type Word = w: int | 0 <= w < 0x1_0000_0000

  /** The whole 32-bit address space. */
  type Space = m: seq<Byte> | |m| == SPACE ghost witness seq(SPACE, _ => 0)

  /** Arithmetic modulo 2^32. */
  function Wrap(x: int): Word
    decreases if x < 0 then SPACE - x else x
  {
    if x < 0 then Wrap(x + SPACE) else if x < SPACE then x else Wrap(x - SPACE)
  }

  lemma {:induction false} WrapTwice(x: nat, y: nat)
    ensures Wrap(Wrap(x) + y) == Wrap(x + y)
    decreases x
  {
    if x >= SPACE { WrapTwice(x - SPACE, y); }
  }

  /** Bit n of w. */
  predicate Test(w: nat, n: nat) {
    if n == 0 then w % 2 == 1 else Test(w / 2, n - 1)
  }

  function Clear(w: nat, n: nat): (r: nat)
    ensures r <= w && !Test(r, n)
  {
    if n == 0 then w - w % 2 else 2 * Clear(w / 2, n - 1) + w % 2
  }

  function ClearAll(w: nat, bits: seq<nat>): (r: nat)
    ensures r <= w && (bits != [] ==> !Test(r, bits[|bits| - 1]))
  {
    if bits == [] then w else Clear(ClearAll(w, bits[..|bits| - 1]), bits[|bits| - 1])
  }

  function TwoTo(n: nat): nat { if n == 0 then 1 else 2 * TwoTo(n - 1) }

  lemma HalfFirst(w: nat, p: nat)
    requires p > 0
    ensures w / 2 / p == w / (2 * p)
  {
    var h := w / 2;
    Numerals.Divides(w, 2 * p, h / p, 2 * (h % p) + w % 2);
  }

  lemma TwoToPositive(n: nat)
    ensures TwoTo(n) > 0
  {
  }

  lemma {:induction false} TestIs(w: nat, n: nat)
    ensures TwoTo(n) > 0 && (Test(w, n) <==> w / TwoTo(n) % 2 == 1)
    decreases n
  {
    TwoToPositive(n);
    if n > 0 {
      TestIs(w / 2, n - 1);
      HalfFirst(w, TwoTo(n - 1));
    }
  }

  /** Bits above the n low ones. */
  lemma {:induction false} TestAbove(low: nat, n: nat, rest: nat, j: nat)
    requires low < TwoTo(n)
    ensures Test(low + TwoTo(n) * rest, n + j) <==> Test(rest, j)
    decreases n
  {
    if n > 0 {
      var p := TwoTo(n - 1);
      Doubled(p, rest);
      assert (low + 2 * (p * rest)) / 2 == low / 2 + p * rest;
      TestAbove(low / 2, n - 1, rest, j);
    }
  }

  lemma Doubled(p: nat, rest: nat)
    ensures 2 * p * rest == 2 * (p * rest)
  {
  }

  /** Clearing a bit leaves all others. */
  lemma {:induction false} ClearExactly(w: nat, n: nat, m: nat)
    ensures Test(Clear(w, n), m) <==> m != n && Test(w, m)
    decreases n
  {
    if n == 0 {
      if m > 0 { assert (w - w % 2) / 2 == w / 2; }
    } else if m > 0 {
      assert (2 * Clear(w / 2, n - 1) + w % 2) / 2 == Clear(w / 2, n - 1);
      ClearExactly(w / 2, n - 1, m - 1);
    }
  }

  lemma {:induction false} ClearAllExactly(w: nat, bits: seq<nat>, m: nat)
    ensures Test(ClearAll(w, bits), m) <==> m !in bits && Test(w, m)
    decreases |bits|
  {
    if bits != [] {
      var rest, n := bits[..|bits| - 1], bits[|bits| - 1];
      assert bits == rest + [n];
      ClearAllExactly(w, rest, m);
      ClearExactly(ClearAll(w, rest), n, m);
    }
  }

  function Limit(n: nat): nat { if n == 0 then 1 else 0x100 * Limit(n - 1) }

  lemma WordLimit()
    ensures Limit(4) == SPACE
  {
    assert Limit(1) == 0x100 && Limit(2) == 0x1_0000 && Limit(3) == 0x100_0000;
  }

  /** The number in n bytes from a on, least significant first. */
  function Load(m: Space, a: int, n: nat): nat
    requires 0 <= a && a + n <= SPACE
    decreases SPACE - a
  {
    if n == 0 then 0 else m[a] + 0x100 * Load(m, a + 1, n - 1)
  }

  function Store(m: Space, a: int, w: nat, n: nat): Space
    requires 0 <= a && a + n <= SPACE
    decreases SPACE - a
  {
    if n == 0 then m else Store(m[a := w % 0x100], a + 1, w / 0x100, n - 1)
  }

  lemma {:induction false} LoadBound(m: Space, a: int, n: nat)
    requires 0 <= a && a + n <= SPACE
    ensures Load(m, a, n) < Limit(n)
    decreases n
  {
    if n > 0 { LoadBound(m, a + 1, n - 1); }
  }

  function Rd32(m: Space, a: int): (w: Word)
    requires 0 <= a <= SPACE - 4
  {
    LoadBound(m, a, 4); WordLimit();
    Load(m, a, 4)
  }

  function Wr32(m: Space, a: int, w: Word): (m': Space)
    requires 0 <= a <= SPACE - 4
  {
    Store(m, a, w, 4)
  }

  lemma {:induction false} LoadSame(m: Space, m': Space, a: int, n: nat)
    requires 0 <= a && a + n <= SPACE
    requires forall x :: a <= x < a + n ==> m[x] == m'[x]
    ensures Load(m, a, n) == Load(m', a, n)
    decreases n
  {
    if n > 0 { LoadSame(m, m', a + 1, n - 1); }
  }

  lemma {:induction false} StoreLoad(m: Space, a: int, w: nat, n: nat)
    requires 0 <= a && a + n <= SPACE && w < Limit(n)
    ensures Load(Store(m, a, w, n), a, n) == w
    ensures forall x :: 0 <= x < SPACE && !(a <= x < a + n) ==> Store(m, a, w, n)[x] == m[x]
    decreases n
  {
    if n > 0 { StoreLoad(m[a := w % 0x100], a + 1, w / 0x100, n - 1); }
  }

  /** A dword store is read back as stored, and every other byte keeps its value. */
  lemma StoreThenLoad(m: Space, a: int, w: Word)
    requires 0 <= a <= SPACE - 4
    ensures Rd32(Wr32(m, a, w), a) == w
    ensures forall x :: 0 <= x < SPACE && !(a <= x < a + 4) ==> Wr32(m, a, w)[x] == m[x]
  {
    WordLimit();
    StoreLoad(m, a, w, 4);
  }

  /** A dword depends on its four bytes only. */
  lemma LoadCongruence(m: Space, m': Space, a: int)
    requires 0 <= a <= SPACE - 4
    requires forall x :: a <= x < a + 4 ==> m[x] == m'[x]
    ensures Rd32(m, a) == Rd32(m', a)
  {
    LoadSame(m, m', a, 4);
  }

  /** m' is m but for the bytes from lo up to hi. */
  ghost predicate SameOutside(m: Space, m': Space, lo: int, hi: int) {
    forall x {:trigger m'[x]} :: 0 <= x < SPACE && !(lo <= x < hi) ==> m'[x] == m[x]
  }

  /** The four bytes of a dword. */
  lemma DwordBytes(m: Space, a: int)
    requires 0 <= a <= SPACE - 4
    ensures Rd32(m, a) == m[a] as int + 0x100 * m[a + 1] as int + 0x1_0000 * m[a + 2] as int + 0x100_0000 * m[a + 3] as int
  {
    assert Load(m, a + 4, 0) == 0;
    assert Load(m, a + 3, 1) == m[a + 3];
    assert Load(m, a + 2, 2) == m[a + 2] as int + 0x100 * m[a + 3] as int;
    assert Load(m, a + 1, 3) == m[a + 1] + 0x100 * Load(m, a + 2, 2);
  }

  lemma DwordStores(m: Space, a: int, w: Word, b0: Byte, b1: Byte, b2: Byte, b3: Byte)
    requires 0 <= a <= SPACE - 4 && w == b0 + 0x100 * b1 + 0x1_0000 * b2 + 0x100_0000 * b3
    ensures Wr32(m, a, w) == m[a := b0][a + 1 := b1][a + 2 := b2][a + 3 := b3]
  {
    var w1 := b1 + 0x100 * b2 + 0x1_0000 * b3;
    var w2 := b2 + 0x100 * b3;
    assert w == b0 + 0x100 * w1 && w1 == b1 + 0x100 * w2;
    var m1 := m[a := b0];
    var m2 := m1[a + 1 := b1];
    var m3 := m2[a + 2 := b2];
    assert Store(m, a, w, 4) == Store(m1, a + 1, w1, 3);
    assert Store(m1, a + 1, w1, 3) == Store(m2, a + 2, w2, 2);
    assert Store(m2, a + 2, w2, 2) == Store(m3, a + 3, b3, 1);
    assert Store(m3, a + 3, b3, 1) == Store(m3[a + 3 := b3], a + 4, 0, 0);
  }

  /** The k-th byte of a word, least significant first. */
  function ByteOf(w: Word, k: nat): Byte
    requires k < 4
  {
    var w1 := w / 0x100;
    var w2 := w1 / 0x100;
    if k == 0 then w % 0x100
    else if k == 1 then w1 % 0x100
    else if k == 2 then w2 % 0x100
    else w2 / 0x100
  }

  lemma BytesOfWord(w: Word)
    ensures w == ByteOf(w, 0) + 0x100 * ByteOf(w, 1) + 0x1_0000 * ByteOf(w, 2) + 0x100_0000 * ByteOf(w, 3)
  {
    var w1 := w / 0x100;
    var w2 := w1 / 0x100;
    assert w == 0x100 * w1 + w % 0x100;
    assert w1 == 0x100 * w2 + w1 % 0x100;
  }

  /** The words ws laid out upwards from address a. */
  function Put(m: Space, a: int, ws: seq<Word>): (m': Space)
    requires 0 <= a && a + 4 * |ws| <= SPACE
    decreases |ws|
  {
    if ws == [] then m else Put(Wr32(m, a, ws[0]), a + 4, ws[1..])
  }

  ghost predicate Holds(m: Space, a: int, ws: seq<Word>)
    requires 0 <= a && a + 4 * |ws| <= SPACE
  {
    forall i :: 0 <= i < |ws| ==> Rd32(m, a + 4 * i) == ws[i]
  }

  lemma {:induction false} PutHolds(m: Space, a: int, ws: seq<Word>)
    requires 0 <= a && a + 4 * |ws| <= SPACE
    ensures forall x :: 0 <= x < SPACE && !(a <= x < a + 4 * |ws|) ==> Put(m, a, ws)[x] == m[x]
    ensures Holds(Put(m, a, ws), a, ws)
    decreases |ws|
  {
    if ws != [] {
      var m1 := Wr32(m, a, ws[0]);
      StoreThenLoad(m, a, ws[0]);
      PutHolds(m1, a + 4, ws[1..]);
      var m2 := Put(m1, a + 4, ws[1..]);
      LoadCongruence(m1, m2, a);
      forall i | 0 <= i < |ws|
        ensures Rd32(m2, a + 4 * i) == ws[i]
      {
        if i > 0 {
          assert Rd32(m2, (a + 4) + 4 * (i - 1)) == ws[1..][i - 1];
        }
      }
    }
  }

  // ---- The same on an array -------------------------------------------------------------------------------

  method LoadDword(mem: array<Byte>, a: int) returns (w: Word)
    requires mem.Length == SPACE && 0 <= a <= SPACE - 4
    ensures w == Rd32(mem[..], a)
  {
    DwordBytes(mem[..], a);
    w := mem[a] as int + 0x100 * mem[a + 1] as int + 0x1_0000 * mem[a + 2] as int + 0x100_0000 * mem[a + 3] as int;
  }

  method StoreDword(mem: array<Byte>, a: int, w: Word)
    requires mem.Length == SPACE && 0 <= a <= SPACE - 4
    modifies mem
    ensures mem[..] == Wr32(old(mem[..]), a, w)
  {
    BytesOfWord(w);
    DwordStores(mem[..], a, w, ByteOf(w, 0), ByteOf(w, 1), ByteOf(w, 2), ByteOf(w, 3));
    mem[a] := ByteOf(w, 0);
    mem[a + 1] := ByteOf(w, 1);
    mem[a + 2] := ByteOf(w, 2);
    mem[a + 3] := ByteOf(w, 3);
  }

  method StoreWord16(mem: array<Byte>, a: int, lo: Byte, hi: Byte)
    requires mem.Length == SPACE && 0 <= a <= SPACE - 2
    modifies mem
    ensures Load(mem[..], a, 2) == lo as int + 0x100 * hi as int
    ensures SameOutside(old(mem[..]), mem[..], a, a + 2)
  {
    mem[a] := lo;
    mem[a + 1] := hi;
    assert Load(mem[..], a + 2, 0) == 0 && Load(mem[..], a + 1, 1) == hi;
  }
}
