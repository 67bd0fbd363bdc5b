/** memset, memcpy, strlen and strchr on repeated string instructions. */
module StringOps {
  import opened Memory
  import opened Wrappers

  /** EFLAGS as far as string instructions depend on it or change it. */
  datatype Flags = Flags(df: bool, zf: bool, other: Word)

  // ---- The instructions -----------------------------------------------------------------------------------

  function Stride(df: bool, width: nat): int { if df then 0 - width else width }

  /** The n items of the given width that a repeated instruction touches all lie in memory. */
  predicate Spans(a: int, n: nat, width: nat, df: bool) {
    n == 0 || (if df then 0 <= a - width * (n - 1) && a + width <= SPACE else 0 <= a && a + width * n <= SPACE)
  }

  function Stosb(m: Space, a: int, c: Byte, n: nat, df: bool): Space
    requires Spans(a, n, 1, df)
    decreases n
  {
    if n == 0 then m else Stosb(m[a := c], a + Stride(df, 1), c, n - 1, df)
  }

  function Stosd(m: Space, a: int, w: Word, n: nat, df: bool): Space
    requires Spans(a, n, 4, df)
    decreases n
  {
    if n == 0 then m else Stosd(Wr32(m, a, w), a + Stride(df, 4), w, n - 1, df)
  }

  function Movsb(m: Space, d: int, s: int, n: nat, df: bool): Space
    requires Spans(d, n, 1, df) && Spans(s, n, 1, df)
    decreases n
  {
    if n == 0 then m else Movsb(m[d := m[s]], d + Stride(df, 1), s + Stride(df, 1), n - 1, df)
  }

  /** One movsl: four bytes, all read before any is written. */
  function Movsl(m: Space, d: int, s: int): Space
    requires 0 <= d <= SPACE - 4 && 0 <= s <= SPACE - 4
  {
    Wr32(m, d, Rd32(m, s))
  }

  function Movsd(m: Space, d: int, s: int, n: nat, df: bool): Space
    requires Spans(d, n, 4, df) && Spans(s, n, 4, df)
    decreases n
  {
    if n == 0 then m else Movsd(Movsl(m, d, s), d + Stride(df, 4), s + Stride(df, 4), n - 1, df)
  }

  /** One item of a repeated dword move. */
  lemma MovsdNext(m: Space, d: int, s: int, n: nat, df: bool)
    requires n > 0 && Spans(d, n, 4, df) && Spans(s, n, 4, df)
    ensures 0 <= d <= SPACE - 4 && 0 <= s <= SPACE - 4
    ensures Spans(d + Stride(df, 4), n - 1, 4, df) && Spans(s + Stride(df, 4), n - 1, 4, df)
    ensures Movsd(m, d, s, n, df) == Movsd(Movsl(m, d, s), d + Stride(df, 4), s + Stride(df, 4), n - 1, df)
  {
  }

  /** A scan for c that stays in memory until it finds c or has looked at n bytes. */
  ghost predicate ScanSafe(m: Space, a: int, c: Byte, n: nat, df: bool)
    decreases n
  {
    n == 0 || (0 <= a < SPACE && (m[a] == c || ScanSafe(m, a + Stride(df, 1), c, n - 1, df)))
  }

  /** repnz scasb: where it stops and what is left of the count. */
  ghost function Scan(m: Space, a: int, c: Byte, n: nat, df: bool): (int, nat)
    requires ScanSafe(m, a, c, n, df)
    decreases n
  {
    if n == 0 then (a, 0)
    else if m[a] == c then (a + Stride(df, 1), n - 1)
    else Scan(m, a + Stride(df, 1), c, n - 1, df)
  }

  // ---- What they should amount to ---------------------------------------------------------------------------

  ghost predicate Filled(m: Space, m': Space, a: int, n: nat, c: Byte) {
    forall x {:trigger m'[x]} :: 0 <= x < SPACE ==> m'[x] == if a <= x < a + n then c else m[x]
  }

  /** m' is m after copying n bytes from s to d all at once. */
  ghost predicate Copied(m: Space, m': Space, d: int, s: int, n: nat)
    requires 0 <= s && s + n <= SPACE
  {
    forall x {:trigger m'[x]} :: 0 <= x < SPACE ==> m'[x] == if d <= x < d + n then m[s + (x - d)] else m[x]
  }

  /** A byte replicated four times. */
  function Replicated(c: Byte): Word {
    var w := c * 0x100 + c;
    w * 0x1_0000 + w
  }

  lemma StoreReplicated(m: Space, a: int, c: Byte)
    requires 0 <= a <= SPACE - 4
    ensures Filled(m, Wr32(m, a, Replicated(c)), a, 4, c)
  {
    DwordStores(m, a, Replicated(c), c, c, c, c);
  }

  lemma MoveDword(m: Space, d: int, s: int)
    requires 0 <= d <= SPACE - 4 && 0 <= s <= SPACE - 4
    ensures Copied(m, Movsl(m, d, s), d, s, 4)
  {
    DwordBytes(m, s);
    DwordStores(m, d, Rd32(m, s), m[s], m[s + 1], m[s + 2], m[s + 3]);
  }

  lemma {:induction false} StosbFills(m: Space, a: int, c: Byte, n: nat, df: bool)
    requires !df && Spans(a, n, 1, df)
    ensures Filled(m, Stosb(m, a, c, n, df), a, n, c)
    decreases n
  {
    if n > 0 { StosbFills(m[a := c], a + 1, c, n - 1, df); }
  }

  lemma {:induction false} StosdFills(m: Space, a: int, c: Byte, n: nat, df: bool)
    requires !df && Spans(a, n, 4, df)
    ensures Filled(m, Stosd(m, a, Replicated(c), n, df), a, 4 * n, c)
    decreases n
  {
    if n > 0 {
      var m1 := Wr32(m, a, Replicated(c));
      StoreReplicated(m, a, c);
      StosdFills(m1, a + 4, c, n - 1, df);
      FillsJoin(m, m1, Stosd(m1, a + 4, Replicated(c), n - 1, df), a, 4, 4 * (n - 1), c);
    }
  }

  lemma FillsJoin(m0: Space, m1: Space, m2: Space, a: int, n: nat, k: nat, c: Byte)
    requires Filled(m0, m1, a, n, c) && Filled(m1, m2, a + n, k, c)
    ensures Filled(m0, m2, a, n + k, c)
  {
  }

  /** No byte of the second part of the source is overwritten by copying the first part. */
  predicate Untouched(d: int, s: int, n: nat, k: nat) {
    d <= s || s + n + k <= d
  }

  lemma CopiesJoin(m0: Space, m1: Space, m2: Space, d: int, s: int, n: nat, k: nat)
    requires 0 <= s && s + n + k <= SPACE && 0 <= d && d + n + k <= SPACE && Untouched(d, s, n, k)
    requires Copied(m0, m1, d, s, n) && Copied(m1, m2, d + n, s + n, k)
    ensures Copied(m0, m2, d, s, n + k)
  {
    forall x | 0 <= x < SPACE
      ensures m2[x] == if d <= x < d + (n + k) then m0[s + (x - d)] else m0[x]
    {
      if d + n <= x < d + n + k {
        var y := s + n + (x - (d + n));
        assert y == s + (x - d) && !(d <= y < d + n) && 0 <= y < SPACE;
        assert m2[x] == m1[s + n + (x - (d + n))];
        assert m1[y] == m0[y];
      }
    }
  }

  lemma {:induction false} MovsbCopies(m: Space, d: int, s: int, n: nat, df: bool)
    requires !df && Spans(d, n, 1, df) && Spans(s, n, 1, df) && 0 <= s <= SPACE && 0 <= d && (d <= s || s + n <= d)
    ensures Copied(m, Movsb(m, d, s, n, df), d, s, n)
    decreases n
  {
    if n > 0 {
      var m1 := m[d := m[s]];
      MovsbCopies(m1, d + 1, s + 1, n - 1, df);
      CopiesJoin(m, m1, Movsb(m1, d + 1, s + 1, n - 1, df), d, s, 1, n - 1);
    }
  }

  lemma {:induction false} MovsdCopies(m: Space, d: int, s: int, n: nat, df: bool)
    requires !df && Spans(d, n, 4, df) && Spans(s, n, 4, df) && 0 <= s <= SPACE && 0 <= d && (d <= s || s + 4 * n <= d)
    ensures Copied(m, Movsd(m, d, s, n, df), d, s, 4 * n)
    decreases n
  {
    if n > 0 {
      var m1 := Movsl(m, d, s);
      MoveDword(m, d, s);
      MovsdCopies(m1, d + 4, s + 4, n - 1, df);
      CopiesJoin(m, m1, Movsd(m1, d + 4, s + 4, n - 1, df), d, s, 4, 4 * (n - 1));
    }
  }

  // ---- memset and memcpy as functions on memory ----------------------------------------------------------------

  function Set(m: Space, d: int, c: Byte, size: nat): Space
    requires 0 <= d && d + size <= SPACE
  {
    Stosb(Stosd(m, d, Replicated(c), size / 4, false), d + 4 * (size / 4), c, size % 4, false)
  }

  function Copy(m: Space, d: int, s: int, size: nat): Space
    requires 0 <= d && d + size <= SPACE && 0 <= s && s + size <= SPACE
  {
    var n := size / 4;
    Movsb(Movsd(m, d, s, n, false), d + 4 * n, s + 4 * n, size % 4, false)
  }

  /** memset fills the range with the byte and nothing else, for every size. */
  lemma SetFills(m: Space, d: int, c: Byte, size: nat)
    requires 0 <= d && d + size <= SPACE
    ensures Filled(m, Set(m, d, c, size), d, size, c)
  {
    var n := size / 4;
    StosdFills(m, d, c, n, false);
    var m1 := Stosd(m, d, Replicated(c), n, false);
    StosbFills(m1, d + 4 * n, c, size % 4, false);
    FillsJoin(m, m1, Set(m, d, c, size), d, 4 * n, size % 4, c);
  }

  lemma CopyCopies(m: Space, d: int, s: int, size: nat)
    requires 0 <= d && d + size <= SPACE && 0 <= s && s + size <= SPACE
    requires d <= s || s + size <= d || size == 4
    ensures Copied(m, Copy(m, d, s, size), d, s, size)
  {
    if size == 4 {
      MoveDword(m, d, s);
      assert Movsd(m, d, s, 1, false) == Movsl(m, d, s);
    } else {
      var n := size / 4;
      MovsdCopies(m, d, s, n, false);
      var m1 := Movsd(m, d, s, n, false);
      MovsbCopies(m1, d + 4 * n, s + 4 * n, size % 4, false);
      CopiesJoin(m, m1, Copy(m, d, s, size), d, s, 4 * n, size % 4);
    }
  }

  // ---- When copying with memcpy is copying all at once ---------------------------------------------------------

  /** A source byte that copying the earlier bytes has overwritten by the time it is read. */
  function Clobbered(d: int, s: int, size: nat): (j: nat)
    requires s < d < s + size && size != 4
    ensures d - s <= j < size
    ensures if j < 4 * (size / 4) then (j - (d - s)) / 4 < j / 4 else j - (d - s) < j
  {
    if size % 4 > 0 then size - 1
    else if size - 4 >= d - s then size - 4
    else d - s
  }

  ghost predicate AllZero(m: Space) { forall x :: 0 <= x < SPACE ==> m[x] == 0 }

  /** Zero everywhere but possibly at p, where it is one. */
  ghost predicate OneAt(m: Space, p: int) {
    forall x :: 0 <= x < SPACE ==> m[x] == 0 || (x == p && m[x] == 1)
  }

  lemma ZeroDword(m: Space, d: int, s: int)
    requires 0 <= d <= SPACE - 4 && 0 <= s <= SPACE - 4 && forall x :: s <= x < s + 4 ==> m[x] == 0
    ensures forall x :: 0 <= x < SPACE ==> Movsl(m, d, s)[x] == if d <= x < d + 4 then 0 else m[x]
  {
    MoveDword(m, d, s);
  }

  lemma {:induction false} MovsdZero(m: Space, d: int, s: int, n: nat)
    requires Spans(d, n, 4, false) && Spans(s, n, 4, false) && AllZero(m)
    ensures AllZero(Movsd(m, d, s, n, false))
    decreases n
  {
    if n > 0 {
      ZeroDword(m, d, s);
      MovsdZero(Movsl(m, d, s), d + 4, s + 4, n - 1);
    }
  }

  lemma {:induction false} MovsbZero(m: Space, d: int, s: int, n: nat)
    requires Spans(d, n, 1, false) && Spans(s, n, 1, false) && AllZero(m)
    ensures AllZero(Movsb(m, d, s, n, false))
    decreases n
  {
    if n > 0 { MovsbZero(m[d := m[s]], d + 1, s + 1, n - 1); }
  }

  /** A byte that is never read is not copied. */
  lemma {:induction false} MovsdIgnores(m: Space, d: int, s: int, n: nat, p: int)
    requires Spans(d, n, 4, false) && Spans(s, n, 4, false) && OneAt(m, p) && p >= s + 4 * n
    ensures OneAt(Movsd(m, d, s, n, false), p)
    decreases n
  {
    if n > 0 {
      ZeroDword(m, d, s);
      MovsdIgnores(Movsl(m, d, s), d + 4, s + 4, n - 1, p);
    }
  }

  /** A byte overwritten by the i-th dword before it is read is lost. */
  lemma {:induction false} MovsdErases(m: Space, d: int, s: int, n: nat, p: int, i: nat)
    requires Spans(d, n, 4, false) && Spans(s, n, 4, false) && OneAt(m, p)
    requires i < n && d + 4 * i <= p < d + 4 * i + 4 && p >= s + 4 * i + 4
    ensures AllZero(Movsd(m, d, s, n, false))
    decreases n
  {
    ZeroDword(m, d, s);
    var m1 := Movsl(m, d, s);
    if i == 0 {
      MovsdZero(m1, d + 4, s + 4, n - 1);
    } else {
      MovsdErases(m1, d + 4, s + 4, n - 1, p, i - 1);
    }
  }

  lemma {:induction false} MovsbErases(m: Space, d: int, s: int, n: nat, p: int, i: nat)
    requires Spans(d, n, 1, false) && Spans(s, n, 1, false) && OneAt(m, p)
    requires i < n && p == d + i && p >= s + i + 1
    ensures AllZero(Movsb(m, d, s, n, false))
    decreases n
  {
    var m1 := m[d := m[s]];
    if i == 0 {
      MovsbZero(m1, d + 1, s + 1, n - 1);
    } else {
      MovsbErases(m1, d + 1, s + 1, n - 1, p, i - 1);
    }
  }

  lemma CopyLoses(m: Space, d: int, s: int, size: nat)
    requires 0 <= d && d + size <= SPACE && 0 <= s && s + size <= SPACE
    requires s < d < s + size && size != 4
    requires OneAt(m, s + Clobbered(d, s, size))
    ensures AllZero(Copy(m, d, s, size))
  {
    var j := Clobbered(d, s, size);
    var p, n := s + j, size / 4;
    var m1 := Movsd(m, d, s, n, false);
    if p - d < 4 * n {
      MovsdErases(m, d, s, n, p, (p - d) / 4);
      MovsbZero(m1, d + 4 * n, s + 4 * n, size % 4);
    } else {
      MovsdIgnores(m, d, s, n, p);
      MovsbErases(m1, d + 4 * n, s + 4 * n, size % 4, p, p - d - 4 * n);
    }
  }

  ghost predicate AlwaysCopies(d: int, s: int, size: nat)
    requires 0 <= d && d + size <= SPACE && 0 <= s && s + size <= SPACE
  {
    forall m: Space :: Copied(m, Copy(m, d, s, size), d, s, size)
  }

  /** memcpy copies all at once, whatever memory holds, exactly when the destination does not start
      inside the source past its first byte, or the copy is a single dword. */
  lemma CopyExactly(d: int, s: int, size: nat)
    requires 0 <= d && d + size <= SPACE && 0 <= s && s + size <= SPACE
    ensures AlwaysCopies(d, s, size) <==> d <= s || s + size <= d || size == 4
  {
    if d <= s || s + size <= d || size == 4 {
      forall m: Space
        ensures Copied(m, Copy(m, d, s, size), d, s, size)
      {
        CopyCopies(m, d, s, size);
      }
    } else {
      var j := Clobbered(d, s, size);
      var zeros: seq<Byte> := seq(SPACE, _ => 0);
      var m: Space := zeros[s + j := 1];
      CopyLoses(m, d, s, size);
      assert Copy(m, d, s, size)[d + j] == 0 && m[s + j] == 1;
      assert !Copied(m, Copy(m, d, s, size), d, s, size);
    }
  }

  // ---- Scans ------------------------------------------------------------------------------------------------------

  /** The first place at or after a where c is, with n bytes to look at: index n when there is none. */
  ghost predicate FirstAt(m: Space, a: int, c: Byte, n: nat, i: nat) {
    && i <= n && 0 <= a && a + i <= SPACE && (i < n ==> a + i < SPACE && m[a + i] == c)
    && forall x :: a <= x < a + i ==> m[x] != c
  }

  /** A forward scan stops just after the first match, with the bytes beyond it left to count. */
  lemma {:induction false} ScanFindsFirst(m: Space, a: int, c: Byte, n: nat, i: nat)
    requires FirstAt(m, a, c, n, i)
    ensures ScanSafe(m, a, c, n, false)
    ensures Scan(m, a, c, n, false) == if i < n then (a + i + 1, n - i - 1) else (a + n, 0)
    decreases n
  {
    if i > 0 { ScanFindsFirst(m, a + 1, c, n - 1, i - 1); }
  }

  // ---- The functions of string.h on a machine ------------------------------------------------------------------------

  class StringUnit {
    var flags: Flags
    const mem: array<Byte>

    constructor (m: array<Byte>, f: Flags)
      ensures mem == m && flags == f
    {
      mem := m;
      flags := f;
    }

    method RepStosb(edi: int, al: Byte, count: nat)
      requires mem.Length == SPACE && Spans(edi, count, 1, flags.df)
      modifies mem
      ensures mem[..] == Stosb(old(mem[..]), edi, al, count, flags.df)
    {
      var a, n := edi, count;
      while n != 0
        invariant Spans(a, n, 1, flags.df)
        invariant Stosb(mem[..], a, al, n, flags.df) == Stosb(old(mem[..]), edi, al, count, flags.df)
      {
        ghost var before := mem[..];
        mem[a] := al;
        assert mem[..] == before[a := al];
        a := a + Stride(flags.df, 1);
        n := n - 1;
      }
    }

    method RepStosd(edi: int, eax: Word, count: nat)
      requires mem.Length == SPACE && Spans(edi, count, 4, flags.df)
      modifies mem
      ensures mem[..] == Stosd(old(mem[..]), edi, eax, count, flags.df)
    {
      var a, n := edi, count;
      while n != 0
        invariant Spans(a, n, 4, flags.df)
        invariant Stosd(mem[..], a, eax, n, flags.df) == Stosd(old(mem[..]), edi, eax, count, flags.df)
      {
        StoreDword(mem, a, eax);
        a := a + Stride(flags.df, 4);
        n := n - 1;
      }
    }

    method RepMovsb(edi: int, esi: int, count: nat)
      requires mem.Length == SPACE && Spans(edi, count, 1, flags.df) && Spans(esi, count, 1, flags.df)
      modifies mem
      ensures mem[..] == Movsb(old(mem[..]), edi, esi, count, flags.df)
    {
      var d, s, n := edi, esi, count;
      while n != 0
        invariant Spans(d, n, 1, flags.df) && Spans(s, n, 1, flags.df)
        invariant Movsb(mem[..], d, s, n, flags.df) == Movsb(old(mem[..]), edi, esi, count, flags.df)
      {
        ghost var before := mem[..];
        mem[d] := mem[s];
        assert mem[..] == before[d := before[s]];
        d := d + Stride(flags.df, 1);
        s := s + Stride(flags.df, 1);
        n := n - 1;
      }
    }

    method MoveLong(d: int, s: int)
      requires mem.Length == SPACE && 0 <= d <= SPACE - 4 && 0 <= s <= SPACE - 4
      modifies mem
      ensures mem[..] == Movsl(old(mem[..]), d, s)
    {
      var w := LoadDword(mem, s);
      StoreDword(mem, d, w);
    }

    method RepMovsd(edi: int, esi: int, count: nat)
      requires mem.Length == SPACE && Spans(edi, count, 4, flags.df) && Spans(esi, count, 4, flags.df)
      modifies mem
      ensures mem[..] == Movsd(old(mem[..]), edi, esi, count, flags.df)
    {
      var d, s, n := edi, esi, count;
      ghost var goal := Movsd(mem[..], edi, esi, count, flags.df);
      while n != 0
        invariant Spans(d, n, 4, flags.df) && Spans(s, n, 4, flags.df)
        invariant Movsd(mem[..], d, s, n, flags.df) == goal
      {
        MovsdNext(mem[..], d, s, n, flags.df);
        MoveLong(d, s);
        d := d + Stride(flags.df, 4);
        s := s + Stride(flags.df, 4);
        n := n - 1;
      }
    }

    method RepnzScasb(edi: int, al: Byte, count: nat) returns (d: int, left: nat)
      requires mem.Length == SPACE && ScanSafe(mem[..], edi, al, count, flags.df)
      modifies this`flags
      ensures (d, left) == Scan(mem[..], edi, al, count, old(flags).df)
      ensures flags.df == old(flags).df
    {
      d, left := edi, count;
      while left != 0
        invariant flags.df == old(flags).df && ScanSafe(mem[..], d, al, left, old(flags).df)
        invariant Scan(mem[..], d, al, left, old(flags).df) == Scan(mem[..], edi, al, count, old(flags).df)
      {
        var hit := mem[d] == al;
        flags := flags.(zf := hit);
        d := d + Stride(flags.df, 1);
        left := left - 1;
        if hit { return; }
      }
    }

    /** cld; rep stosl; popf. */
    method FixedStosd(edi: int, eax: Word, count: nat)
      requires mem.Length == SPACE && 0 <= edi && edi + 4 * count <= SPACE
      modifies this`flags, mem
      ensures mem[..] == Stosd(old(mem[..]), edi, eax, count, false) && flags == old(flags)
    {
      var save := flags;
      flags := flags.(df := false);
      RepStosd(edi, eax, count);
      flags := save;
    }

    method FixedStosb(edi: int, al: Byte, count: nat)
      requires mem.Length == SPACE && 0 <= edi && edi + count <= SPACE
      modifies this`flags, mem
      ensures mem[..] == Stosb(old(mem[..]), edi, al, count, false) && flags == old(flags)
    {
      var save := flags;
      flags := flags.(df := false);
      RepStosb(edi, al, count);
      flags := save;
    }

    method FixedMovsd(edi: int, esi: int, count: nat)
      requires mem.Length == SPACE && 0 <= edi && edi + 4 * count <= SPACE && 0 <= esi && esi + 4 * count <= SPACE
      modifies this`flags, mem
      ensures mem[..] == Movsd(old(mem[..]), edi, esi, count, false) && flags == old(flags)
    {
      var save := flags;
      flags := flags.(df := false);
      RepMovsd(edi, esi, count);
      flags := save;
    }

    method FixedMovsb(edi: int, esi: int, count: nat)
      requires mem.Length == SPACE && 0 <= edi && edi + count <= SPACE && 0 <= esi && esi + count <= SPACE
      modifies this`flags, mem
      ensures mem[..] == Movsb(old(mem[..]), edi, esi, count, false) && flags == old(flags)
    {
      var save := flags;
      flags := flags.(df := false);
      RepMovsb(edi, esi, count);
      flags := save;
    }

    /** memset: the range is filled, the rest and EFLAGS are as before, whatever DF was. */
    method Memset(dst: int, c: Byte, size: nat) returns (r: int)
      requires mem.Length == SPACE && 0 <= dst && dst + size <= SPACE
      modifies this`flags, mem
      ensures Filled(old(mem[..]), mem[..], dst, size, c) && flags == old(flags) && r == dst
    {
      ghost var m := mem[..];
      r := dst;
      SetFills(m, dst, c, size);
      if size == 0 { return; }
      var cnt, rm := size / 4, size % 4;
      var d := dst;
      if cnt != 0 {
        FixedStosd(d, Replicated(c), cnt);
        d := d + 4 * cnt;
      }
      if rm != 0 {
        FixedStosb(d, c, rm);
      }
      assert mem[..] == Set(m, dst, c, size);
    }

    /** memcpy: what Copy says, whatever DF was; see CopyExactly for when that is a copy. */
    method Memcpy(dst: int, src: int, size: nat) returns (r: int)
      requires mem.Length == SPACE && 0 <= dst && dst + size <= SPACE && 0 <= src && src + size <= SPACE
      modifies this`flags, mem
      ensures mem[..] == Copy(old(mem[..]), dst, src, size) && flags == old(flags) && r == dst
      ensures dst <= src || src + size <= dst || size == 4 ==> Copied(old(mem[..]), mem[..], dst, src, size)
    {
      ghost var m := mem[..];
      r := dst;
      if dst <= src || src + size <= dst || size == 4 { CopyCopies(m, dst, src, size); }
      if size == 0 { return; }
      var cnt, rm := size / 4, size % 4;
      var d, s := dst, src;
      if cnt != 0 {
        FixedMovsd(d, s, cnt);
        d := d + 4 * cnt;
        s := s + 4 * cnt;
      }
      if rm != 0 {
        FixedMovsb(d, s, rm);
      }
    }

    method FixedScasb(edi: int, al: Byte, count: nat, ghost i: nat) returns (d: int, left: nat)
      requires mem.Length == SPACE && FirstAt(mem[..], edi, al, count, i)
      modifies this`flags
      ensures d == (if i < count then edi + i + 1 else edi + count) && left == (if i < count then count - i - 1 else 0)
      ensures flags == old(flags)
    {
      var save := flags;
      flags := flags.(df := false);
      ScanFindsFirst(mem[..], edi, al, count, i);
      d, left := RepnzScasb(edi, al, count);
      flags := save;
    }

    /** strlen: the least index of a NUL, for a string that ends in memory. */
    method Strlen(str: int, ghost i: nat) returns (len: nat)
      requires mem.Length == SPACE && i < SPACE - 1 && FirstAt(mem[..], str, 0, SPACE - 1, i)
      modifies this`flags
      ensures len == i && flags == old(flags)
    {
      var d, left := FixedScasb(str, 0, SPACE - 1, i);
      len := d - 1 - str;
    }

    /** strchr: the place of the first match among the len bytes, unless it is in the last of them: the
        count left over is then 0, as when there is no match. */
    method Strchr(str: int, len: nat, c: Byte, ghost i: nat) returns (p: Option<int>)
      requires mem.Length == SPACE && FirstAt(mem[..], str, c, len, i)
      modifies this`flags
      ensures p == if i + 1 < len then Some(str + i) else None
      ensures p.Some? <==> exists x :: str <= x < str + len - 1 && x < SPACE && mem[x] == c
      ensures flags == old(flags)
    {
      var d, left := FixedScasb(str, c, len, i);
      p := if left == 0 then None else Some(d - 1);
      if i + 1 < len { assert mem[str + i] == c; }
      assert forall x :: str <= x < str + i ==> mem[x] == mem[..][x];
    }
  }
}
