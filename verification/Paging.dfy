/** The page tables of the paging exercise: built in flat memory, then read back by the two-level walk
    for every address. */
module Paging {
  import opened Memory
  import opened StringOps

  const PAGE: int := 0x1000
  const PG_RW: Word := 2

  const PGD: int := 0x60_0000
  const PTB: int := 0x60_1000
  const PTB2: int := 0x60_2000
  const PTB3: int := 0x60_3000
  const TARGET: Word := 0xc000_0000

  function DirIndex(va: Word): nat { va / 0x40_0000 }

  function TabIndex(va: Word): nat { va / PAGE % 0x400 }

  function PageNr(a: Word): nat { a / PAGE }

  /** Entry i of a table of dwords. */
  function Entry(m: Space, table: int, i: nat): Word
    requires 0 <= table && table + 4 * i + 4 <= SPACE
  {
    Rd32(m, table + 4 * i)
  }

  /** A present entry for a page frame. */
  function EntryFor(attr: Word, pfn: nat): Word
    requires attr < PAGE
  {
    (if attr % 2 == 1 then attr else attr + 1) % PAGE + PAGE * (pfn % 0x10_0000)
  }

  // ---- The walk (Intel SDM volume 3A, section 4.3) -------------------------------------------------------------

  datatype Mapping = NotPresent | Mapped(pa: int, writable: bool, user: bool)

  predicate Bit(e: Word, b: Word)
    requires b > 0
  {
    e / b % 2 == 1
  }

  /** 32-bit paging; pse is CR4.PSE, which makes a directory entry with bit 7 set map 4 MBytes. */
  function Walk(m: Space, cr3: Word, pse: bool, va: Word): Mapping {
    var pde := Entry(m, cr3 / PAGE * PAGE, DirIndex(va));
    if !Bit(pde, 1) then NotPresent
    else if pse && Bit(pde, 0x80) then
      Mapped(pde / 0x40_0000 * 0x40_0000 + va % 0x40_0000, Bit(pde, 2), Bit(pde, 4))
    else
      var pte := Entry(m, pde / PAGE * PAGE, TabIndex(va));
      if !Bit(pte, 1) then NotPresent
      else Mapped(pte / PAGE * PAGE + va % PAGE, Bit(pde, 2) && Bit(pte, 2), Bit(pde, 4) && Bit(pte, 4))
  }

  lemma BitTest(e: Word)
    ensures (Bit(e, 1) <==> Test(e, 0)) && (Bit(e, 2) <==> Test(e, 1)) && (Bit(e, 4) <==> Test(e, 2))
    ensures Bit(e, 0x80) <==> Test(e, 7)
  {
    TestIs(e, 0);
    TestIs(e, 1);
    TestIs(e, 2);
    TestIs(e, 7);
    assert TwoTo(1) == 2 && TwoTo(2) == 4;
    assert TwoTo(4) == 0x10;
    assert TwoTo(7) == 0x80;
  }

  /** The walk by the bits of the two entries: bit 0 present, bit 1 writable, bit 2 user, bit 7 of a directory entry
      a page of 4 MBytes if enabled; access needs the right in both. */
  lemma WalkByBits(m: Space, cr3: Word, pse: bool, va: Word)
    ensures var pde := Rd32(m, cr3 / 0x1000 * 0x1000 + 4 * (va / 0x40_0000));
      if !Test(pde, 0) then Walk(m, cr3, pse, va) == NotPresent
      else if pse && Test(pde, 7) then
        Walk(m, cr3, pse, va) == Mapped(pde / 0x40_0000 * 0x40_0000 + va % 0x40_0000, Test(pde, 1), Test(pde, 2))
      else
        var pte := Rd32(m, pde / 0x1000 * 0x1000 + 4 * (va / 0x1000 % 0x400));
        Walk(m, cr3, pse, va) ==
          if !Test(pte, 0) then NotPresent
          else Mapped(pte / 0x1000 * 0x1000 + va % 0x1000, Test(pde, 1) && Test(pte, 1), Test(pde, 2) && Test(pte, 2))
  {
    var pde := Entry(m, cr3 / PAGE * PAGE, DirIndex(va));
    BitTest(pde);
    if Bit(pde, 1) { BitTest(Entry(m, pde / PAGE * PAGE, TabIndex(va))); }
  }

  // ---- Memory with one dword changed, or a range cleared ---------------------------------------------------------

  lemma EntryKept(m: Space, m': Space, lo: int, hi: int, table: int, i: nat)
    requires SameOutside(m, m', lo, hi)
    requires 0 <= table && table + 4 * i + 4 <= SPACE && (table + 4 * i + 4 <= lo || hi <= table + 4 * i)
    ensures Entry(m', table, i) == Entry(m, table, i)
  {
    LoadCongruence(m, m', table + 4 * i);
  }

  ghost predicate SameTable(m: Space, m': Space, table: int)
    requires 0 <= table && table + PAGE <= SPACE
  {
    forall i :: 0 <= i < 0x400 ==> Entry(m', table, i) == Entry(m, table, i)
  }

  /** Nothing in the table but entry k has changed. */
  ghost predicate SameBut(m: Space, m': Space, table: int, k: nat)
    requires 0 <= table && table + PAGE <= SPACE
  {
    forall i :: 0 <= i < 0x400 && i != k ==> Entry(m', table, i) == Entry(m, table, i)
  }

  lemma TableKept(m: Space, m': Space, lo: int, hi: int, table: int)
    requires SameOutside(m, m', lo, hi) && 0 <= table && table + PAGE <= SPACE && (table + PAGE <= lo || hi <= table)
    ensures SameTable(m, m', table)
  {
    forall i | 0 <= i < 0x400
      ensures Entry(m', table, i) == Entry(m, table, i)
    {
      EntryKept(m, m', lo, hi, table, i);
    }
  }

  lemma OthersKept(m: Space, m': Space, table: int, i: nat)
    requires 0 <= table && table + PAGE <= SPACE && i < 0x400
    requires SameOutside(m, m', table + 4 * i, table + 4 * i + 4)
    ensures SameBut(m, m', table, i)
    ensures forall lo, hi :: lo <= table + 4 * i && table + 4 * i + 4 <= hi ==> SameOutside(m, m', lo, hi)
  {
    forall j | 0 <= j < 0x400 && j != i
      ensures Entry(m', table, j) == Entry(m, table, j)
    {
      EntryKept(m, m', table + 4 * i, table + 4 * i + 4, table, j);
    }
  }

  lemma Cleared(m: Space, m': Space, a: int, n: nat, table: int, i: nat)
    requires Filled(m, m', a, n, 0) && 0 <= table && table + 4 * i + 4 <= SPACE
    requires a <= table + 4 * i && table + 4 * i + 4 <= a + n
    ensures Entry(m', table, i) == 0
  {
    DwordBytes(m', table + 4 * i);
  }

  // ---- Building ---------------------------------------------------------------------------------------------------

  lemma EntryForIs(attr: Word, pfn: nat)
    requires attr < PAGE
    ensures EntryFor(attr, pfn) == attr / 2 * 2 + 1 + 0x1000 * (pfn % 0x10_0000)
  {
  }

  /** pg_set_entry: the raw store, then the frame number in the top 20 bits. */
  method SetEntry(mem: array<Byte>, table: int, i: nat, attr: Word, pfn: nat)
    requires mem.Length == SPACE && 0 <= table && table + 4 * i + 4 <= SPACE && attr < PAGE
    modifies mem
    ensures Rd32(mem[..], table + 4 * i) == attr / 2 * 2 + 1 + 0x1000 * (pfn % 0x10_0000)
    ensures Entry(mem[..], table, i) == EntryFor(attr, pfn)
    ensures SameOutside(old(mem[..]), mem[..], table + 4 * i, table + 4 * i + 4)
  {
    ghost var m0 := mem[..];
    var raw := if attr % 2 == 1 then attr else attr + 1;
    StoreThenLoad(m0, table + 4 * i, raw);
    StoreDword(mem, table + 4 * i, raw);
    ghost var m1 := mem[..];
    var e := LoadDword(mem, table + 4 * i);
    var w := e % PAGE + PAGE * (pfn % 0x10_0000);
    StoreThenLoad(m1, table + 4 * i, w);
    StoreDword(mem, table + 4 * i, w);
    EntryForIs(attr, pfn);
  }

  /** The loops that map a whole table to 1024 consecutive frames. */
  method FillTable(mem: array<Byte>, table: int, first: nat)
    requires mem.Length == SPACE && 0 <= table && table + PAGE <= SPACE && first + 0x400 <= 0x10_0000
    modifies mem
    ensures Identity(mem[..], table, first)
    ensures SameOutside(old(mem[..]), mem[..], table, table + PAGE)
  {
    var i := 0;
    while i < 0x400
      invariant 0 <= i <= 0x400
      invariant forall j :: 0 <= j < i ==> Entry(mem[..], table, j) == PAGE * (first + j) + 3
      invariant SameOutside(old(mem[..]), mem[..], table, table + PAGE)
    {
      ghost var m := mem[..];
      SetEntry(mem, table, i, PG_RW, first + i);
      OthersKept(m, mem[..], table, i);
      i := i + 1;
    }
  }

  // ---- The result ---------------------------------------------------------------------------------------------------

  /** Directory: two identity tables, the window's table, nothing else. */
  function DirEntry(i: nat): Word {
    if i == 0 then PTB + 3 else if i == 1 then PTB2 + 3 else if i == 768 then PTB3 + 3 else 0
  }

  /** First table: identity for frames 1..1023. Entry 0 has been cleared along with the directory. */
  function LowEntry(i: nat): Word
    requires i < 0x400
  {
    if i == 0 then 0 else PAGE * i + 3
  }

  /** Second table: identity for frames 1024..2047, but pages 0x700 and 0x7ff alias frame 2. */
  function HighEntry(i: nat): Word
    requires i < 0x400
  {
    if i == 0x300 || i == 0x3ff then 2 * PAGE + 3 else PAGE * (0x400 + i) + 3
  }

  function WindowEntry(i: nat): Word { if i == 0 then PGD + 3 else 0 }

  ghost predicate Tables(m: Space) {
    forall i :: 0 <= i < 0x400 ==>
      && Entry(m, PGD, i) == DirEntry(i) && Entry(m, PTB, i) == LowEntry(i)
      && Entry(m, PTB2, i) == HighEntry(i) && Entry(m, PTB3, i) == WindowEntry(i)
  }

  /** The four tables, dword by dword: present and writable (3) with the frame above, or zero. */
  ghost predicate TablesInMemory(m: Space) {
    forall i :: 0 <= i < 1024 ==>
      && Rd32(m, 0x60_0000 + 4 * i) == (if i == 0 then 0x60_1003 else if i == 1 then 0x60_2003 else if i == 768 then 0x60_3003 else 0)
      && Rd32(m, 0x60_1000 + 4 * i) == (if i == 0 then 0 else 0x1000 * i + 3)
      && Rd32(m, 0x60_2000 + 4 * i) == (if i == 0x300 || i == 0x3ff then 0x2003 else 0x40_0003 + 0x1000 * i)
      && Rd32(m, 0x60_3000 + 4 * i) == (if i == 0 then 0x60_0003 else 0)
  }

  lemma WordsOfTables(m: Space)
    requires Tables(m)
    ensures TablesInMemory(m)
  {
    forall i | 0 <= i < 1024
      ensures Rd32(m, 0x60_0000 + 4 * i) == (if i == 0 then 0x60_1003 else if i == 1 then 0x60_2003 else if i == 768 then 0x60_3003 else 0)
      ensures Rd32(m, 0x60_1000 + 4 * i) == (if i == 0 then 0 else 0x1000 * i + 3)
      ensures Rd32(m, 0x60_2000 + 4 * i) == (if i == 0x300 || i == 0x3ff then 0x2003 else 0x40_0003 + 0x1000 * i)
      ensures Rd32(m, 0x60_3000 + 4 * i) == (if i == 0 then 0x60_0003 else 0)
    {
      assert Entry(m, PGD, i) == DirEntry(i) && Entry(m, PTB, i) == LowEntry(i);
      assert Entry(m, PTB2, i) == HighEntry(i) && Entry(m, PTB3, i) == WindowEntry(i);
    }
  }

  lemma PresentEntry(frame: int)
    requires 0 <= frame < 0x10_0000
    ensures var e: Word := PAGE * frame + 3;
      Bit(e, 1) && Bit(e, 2) && !Bit(e, 4) && !Bit(e, 0x80) && e / PAGE == frame
  {
  }

  /** The walk over the finished tables, for all 2^32 addresses: pages 0x700 and 0x7ff lead to frame 2, every
      other page from 1 to 0x7ff to itself, page 0xc0000 to the directory at 0x600000, no other anywhere. */
  lemma AddressMap(m: Space, pse: bool, va: Word)
    requires Tables(m)
    ensures Walk(m, 0x60_0000, pse, va) ==
      if va / 0x1000 == 0x700 || va / 0x1000 == 0x7ff then Mapped(0x2000 + va % 0x1000, true, false)
      else if 0x1000 <= va < 0x80_0000 then Mapped(va, true, false)
      else if va / 0x1000 == 0xc_0000 then Mapped(0x60_0000 + va % 0x1000, true, false)
      else NotPresent
  {
    var d, t := DirIndex(va), TabIndex(va);
    assert va / PAGE == 0x400 * d + t;
    assert Entry(m, PGD, d) == DirEntry(d);
    if d == 0 {
      PresentEntry(0x601);
      assert Entry(m, PTB, t) == LowEntry(t);
      if t > 0 { PresentEntry(t); }
    } else if d == 1 {
      PresentEntry(0x602);
      assert Entry(m, PTB2, t) == HighEntry(t);
      PresentEntry(2);
      PresentEntry(0x400 + t);
    } else if d == 768 {
      PresentEntry(0x603);
      assert Entry(m, PTB3, t) == WindowEntry(t);
      PresentEntry(0x600);
    }
  }

  /** Below 8 MBytes the exercise asks for identity. It holds exactly outside pages 0x700 and 0x7ff, which
      are aliases of frame 2 on purpose, and page 0: clearing 4096 bytes from the second directory
      entry on runs four bytes into the first table. */
  lemma IdentityExactly(m: Space, pse: bool, va: Word)
    requires Tables(m) && va < 0x80_0000
    ensures Walk(m, PGD, pse, va) == Mapped(va, true, false) <==> va / PAGE != 0 && va / PAGE != 0x700 && va / PAGE != 0x7ff
    ensures va / PAGE == 0 ==> Walk(m, PGD, pse, va) == NotPresent
  {
    AddressMap(m, pse, va);
  }

  /** A dword store at a virtual address; None is a page fault or an access across a page boundary. */
  function VirtualStore(m: Space, cr3: Word, pse: bool, va: Word, w: Word): (r: seq<Space>) {
    match Walk(m, cr3, pse, va)
    case NotPresent => []
    case Mapped(pa, writable, _) => if writable && va % PAGE <= PAGE - 4 && 0 <= pa <= SPACE - 4 then [Wr32(m, pa, w)] else []
  }

  /** The window: storing any w at TARGET + 4 k makes it directory entry k and leaves the walk of every
      address under another directory entry as it was. */
  lemma SelfMapWindow(m: Space, pse: bool, k: nat, w: Word, va: Word)
    requires Tables(m) && k < 0x400
    ensures |VirtualStore(m, PGD, pse, TARGET + 4 * k, w)| == 1
    ensures var m' := VirtualStore(m, PGD, pse, TARGET + 4 * k, w)[0];
      && Entry(m', PGD, k) == w
      && (DirIndex(va) != k ==> Walk(m', PGD, pse, va) == Walk(m, PGD, pse, va))
      && (DirIndex(va) == k && !Bit(w, 1) ==> Walk(m', PGD, pse, va) == NotPresent)
  {
    WindowStore(m, pse, k, w);
    AddressMap(m, pse, va);
    var m' := Wr32(m, PGD + 4 * k, w);
    StoreThenLoad(m, PGD + 4 * k, w);
    if DirIndex(va) != k {
      EntryKept(m, m', PGD + 4 * k, PGD + 4 * k + 4, PGD, DirIndex(va));
      WalkKept(m, m', pse, va, k);
    }
  }

  lemma WindowStore(m: Space, pse: bool, k: nat, w: Word)
    requires Tables(m) && k < 0x400
    ensures VirtualStore(m, PGD, pse, TARGET + 4 * k, w) == [Wr32(m, PGD + 4 * k, w)]
  {
    var a := TARGET + 4 * k;
    AddressMap(m, pse, a);
    assert a / PAGE == 0xc_0000 && a % PAGE == 4 * k;
  }

  lemma WalkKept(m: Space, m': Space, pse: bool, va: Word, k: nat)
    requires Tables(m) && k < 0x400 && SameOutside(m, m', PGD + 4 * k, PGD + 4 * k + 4)
    requires Entry(m', PGD, DirIndex(va)) == Entry(m, PGD, DirIndex(va))
    ensures Walk(m', PGD, pse, va) == Walk(m, PGD, pse, va)
  {
    var d, t := DirIndex(va), TabIndex(va);
    assert Entry(m, PGD, d) == DirEntry(d);
    PresentEntry(0x601);
    PresentEntry(0x602);
    PresentEntry(0x603);
    EntryKept(m, m', PGD + 4 * k, PGD + 4 * k + 4, PTB, t);
    EntryKept(m, m', PGD + 4 * k, PGD + 4 * k + 4, PTB2, t);
    EntryKept(m, m', PGD + 4 * k, PGD + 4 * k + 4, PTB3, t);
  }

  // ---- The exercise ---------------------------------------------------------------------------------------------------

  /** The tables while tp() fills them: with or without the window, and how many of the two aliases. */
  ghost predicate Built(m: Space, window: bool, aliases: nat) {
    forall i :: 0 <= i < 0x400 ==>
      && Entry(m, PGD, i) == (if i == 768 && !window then 0 else DirEntry(i))
      && Entry(m, PTB, i) == LowEntry(i)
      && Entry(m, PTB2, i) == (if (i == 0x300 && aliases < 1) || (i == 0x3ff && aliases < 2) then PAGE * (0x400 + i) + 3 else HighEntry(i))
      && (window ==> Entry(m, PTB3, i) == WindowEntry(i))
  }

  /** Questions 5 and 6: both identity tables and their directory entries. The second memset starts at
      the second directory entry and so also clears entry 0 of the first table. */
  method IdentityTables(unit: StringUnit)
    requires unit.mem.Length == SPACE
    modifies unit, unit.mem
    ensures unit.flags == old(unit.flags) && SameOutside(old(unit.mem[..]), unit.mem[..], PGD, PTB3 + PAGE)
    ensures Built(unit.mem[..], false, 0)
  {
    var mem := unit.mem;
    ghost var m0 := mem[..];
    FillTable(mem, PTB, 0);
    ghost var m1 := mem[..];
    var r := unit.Memset(PGD, 0, PAGE);
    ghost var m2 := mem[..];
    SetEntry(mem, PGD, 0, PG_RW, PageNr(PTB));
    ghost var m3 := mem[..];
    FirstTableBuilt(m0, m1, m2, m3);
    FillTable(mem, PTB2, 0x400);
    ghost var m4 := mem[..];
    r := unit.Memset(PGD + 4, 0, PAGE);
    ghost var m5 := mem[..];
    SetEntry(mem, PGD, 1, PG_RW, PageNr(PTB2));
    SecondTableBuilt(m3, m4, m5, mem[..]);
    Outside(m0, m3, mem[..]);
  }

  ghost predicate Identity(m: Space, table: int, first: nat)
    requires 0 <= table && table + PAGE <= SPACE && first + 0x400 <= 0x10_0000
  {
    forall j :: 0 <= j < 0x400 ==> Entry(m, table, j) == PAGE * (first + j) + 3
  }

  lemma FirstTableBuilt(m0: Space, m1: Space, m2: Space, m3: Space)
    requires Identity(m1, PTB, 0) && SameOutside(m0, m1, PTB, PTB + PAGE) && Filled(m1, m2, PGD, PAGE, 0)
    requires Entry(m3, PGD, 0) == PTB + 3 && SameOutside(m2, m3, PGD, PGD + 4)
    ensures Identity(m3, PTB, 0) && Entry(m3, PGD, 0) == PTB + 3 && SameOutside(m0, m3, PGD, PTB3 + PAGE)
  {
    TableKept(m1, m2, PGD, PGD + PAGE, PTB);
    TableKept(m2, m3, PGD, PGD + 4, PTB);
  }

  lemma SecondTableBuilt(m3: Space, m4: Space, m5: Space, m: Space)
    requires Identity(m3, PTB, 0) && Entry(m3, PGD, 0) == PTB + 3
    requires Identity(m4, PTB2, 0x400) && SameOutside(m3, m4, PTB2, PTB2 + PAGE) && Filled(m4, m5, PGD + 4, PAGE, 0)
    requires Entry(m, PGD, 1) == PTB2 + 3 && SameOutside(m5, m, PGD + 4, PGD + 8)
    ensures Built(m, false, 0) && SameOutside(m3, m, PGD, PTB3 + PAGE)
  {
    TableKept(m3, m4, PTB2, PTB2 + PAGE, PTB);
    EntryKept(m3, m4, PTB2, PTB2 + PAGE, PGD, 0);
    SecondClear(m4, m5);
    OthersKept(m5, m, PGD, 1);
    TableKept(m5, m, PGD + 4, PGD + 8, PTB);
    TableKept(m5, m, PGD + 4, PGD + 8, PTB2);
  }

  /** memset(&pgd[1], 0, PAGE_SIZE) clears directory entries 1..1023 and entry 0 of the next table. */
  lemma SecondClear(m: Space, m': Space)
    requires Filled(m, m', PGD + 4, PAGE, 0)
    ensures Entry(m', PGD, 0) == Entry(m, PGD, 0) && Entry(m', PTB, 0) == 0
    ensures forall i :: 1 <= i < 0x400 ==> Entry(m', PGD, i) == 0 && Entry(m', PTB, i) == Entry(m, PTB, i)
    ensures SameTable(m, m', PTB2)
  {
    EntryKept(m, m', PGD + 4, PTB + 4, PGD, 0);
    Cleared(m, m', PGD + 4, PAGE, PTB, 0);
    TableKept(m, m', PGD + 4, PTB + 4, PTB2);
    forall i | 1 <= i < 0x400
      ensures Entry(m', PGD, i) == 0 && Entry(m', PTB, i) == Entry(m, PTB, i)
    {
      Cleared(m, m', PGD + 4, PAGE, PGD, i);
      EntryKept(m, m', PGD + 4, PTB + 4, PTB, i);
    }
  }

  /** Question 7: the table of the window onto the directory. */
  method WindowTable(unit: StringUnit)
    requires unit.mem.Length == SPACE && Built(unit.mem[..], false, 0)
    modifies unit, unit.mem
    ensures unit.flags == old(unit.flags)
    ensures Built(unit.mem[..], true, 0) && SameOutside(old(unit.mem[..]), unit.mem[..], PGD, PTB3 + PAGE)
  {
    ghost var m0 := unit.mem[..];
    ghost var m1, m2 := WindowWrites(unit);
    WindowBuilt(m0, m1, m2, unit.mem[..]);
  }

  /** The clearing of the table and the two entries, with the memory after each of the first two. */
  method WindowWrites(unit: StringUnit) returns (ghost m1: Space, ghost m2: Space)
    requires unit.mem.Length == SPACE
    modifies unit, unit.mem
    ensures unit.flags == old(unit.flags)
    ensures Filled(old(unit.mem[..]), m1, PTB3, PAGE, 0)
    ensures Entry(m2, PTB3, 0) == PGD + 3 && SameOutside(m1, m2, PTB3, PTB3 + 4)
    ensures Entry(unit.mem[..], PGD, 768) == PTB3 + 3
    ensures SameOutside(m2, unit.mem[..], PGD + 4 * 768, PGD + 4 * 768 + 4)
  {
    var mem := unit.mem;
    var pgdIdx, ptbIdx := DirIndex(TARGET), TabIndex(TARGET);
    var r := unit.Memset(PTB3, 0, PAGE);
    m1 := mem[..];
    SetEntry(mem, PTB3, ptbIdx, PG_RW, PageNr(PGD));
    m2 := mem[..];
    SetEntry(mem, PGD, pgdIdx, PG_RW, PageNr(PTB3));
  }

  lemma WindowBuilt(m0: Space, m1: Space, m2: Space, m: Space)
    requires Built(m0, false, 0) && Filled(m0, m1, PTB3, PAGE, 0)
    requires Entry(m2, PTB3, 0) == PGD + 3 && SameOutside(m1, m2, PTB3, PTB3 + 4)
    requires Entry(m, PGD, 768) == PTB3 + 3 && SameOutside(m2, m, PGD + 4 * 768, PGD + 4 * 768 + 4)
    ensures Built(m, true, 0) && SameOutside(m0, m, PGD, PTB3 + PAGE)
  {
    ThirdTable(m0, m1);
    OthersKept(m1, m2, PTB3, 0);
    TablesApart(m1, m2, PTB3, PTB3 + 4);
    OthersKept(m2, m, PGD, 768);
    TableKept(m2, m, PGD + 4 * 768, PGD + 4 * 768 + 4, PTB);
    TableKept(m2, m, PGD + 4 * 768, PGD + 4 * 768 + 4, PTB2);
    TableKept(m2, m, PGD + 4 * 768, PGD + 4 * 768 + 4, PTB3);
  }

  lemma TablesApart(m: Space, m': Space, lo: int, hi: int)
    requires SameOutside(m, m', lo, hi) && PTB3 <= lo
    ensures SameTable(m, m', PGD) && SameTable(m, m', PTB) && SameTable(m, m', PTB2)
  {
    TableKept(m, m', lo, hi, PGD);
    TableKept(m, m', lo, hi, PTB);
    TableKept(m, m', lo, hi, PTB2);
  }

  lemma ThirdTable(m: Space, m': Space)
    requires Filled(m, m', PTB3, PAGE, 0)
    ensures forall i :: 0 <= i < 0x400 ==> Entry(m', PTB3, i) == 0
    ensures SameTable(m, m', PGD) && SameTable(m, m', PTB) && SameTable(m, m', PTB2)
  {
    TablesApart(m, m', PTB3, PTB3 + PAGE);
    forall i | 0 <= i < 0x400
      ensures Entry(m', PTB3, i) == 0
    {
      Cleared(m, m', PTB3, PAGE, PTB3, i);
    }
  }

  lemma AliasBuilt(m: Space, m': Space, idx: nat, n: nat)
    requires n < 2 && idx == (if n == 0 then 0x300 else 0x3ff) && Built(m, true, n)
    requires Entry(m', PTB2, idx) == 2 * PAGE + 3 && SameOutside(m, m', PTB2 + 4 * idx, PTB2 + 4 * idx + 4)
    ensures Built(m', true, n + 1) && SameOutside(m, m', PGD, PTB3 + PAGE)
  {
    OthersKept(m, m', PTB2, idx);
    TableKept(m, m', PTB2 + 4 * idx, PTB2 + 4 * idx + 4, PGD);
    TableKept(m, m', PTB2 + 4 * idx, PTB2 + 4 * idx + 4, PTB);
    TableKept(m, m', PTB2 + 4 * idx, PTB2 + 4 * idx + 4, PTB3);
  }

  /** Question 8: the n-th alias of frame 2. */
  method Alias(unit: StringUnit, idx: nat, n: nat)
    requires unit.mem.Length == SPACE && n < 2 && idx == (if n == 0 then 0x300 else 0x3ff)
    requires Built(unit.mem[..], true, n)
    modifies unit.mem
    ensures Built(unit.mem[..], true, n + 1) && SameOutside(old(unit.mem[..]), unit.mem[..], PGD, PTB3 + PAGE)
  {
    ghost var m := unit.mem[..];
    SetEntry(unit.mem, PTB2, idx, PG_RW, 2);
    AliasBuilt(m, unit.mem[..], idx, n);
  }

  lemma Outside(m0: Space, m1: Space, m2: Space)
    requires SameOutside(m0, m1, PGD, PTB3 + PAGE) && SameOutside(m1, m2, PGD, PTB3 + PAGE)
    ensures SameOutside(m0, m2, PGD, PTB3 + PAGE)
  {
  }

  /** tp(): every table write up to the moment paging is switched on. The memory it leaves is the one
      AddressMap reads, and nothing outside the four tables has changed. */
  method Tp(unit: StringUnit) returns (cr3: Word, paging: bool)
    requires unit.mem.Length == SPACE
    modifies unit, unit.mem
    ensures Tables(unit.mem[..]) && cr3 == 0x60_0000 && paging && unit.flags == old(unit.flags)
    ensures TablesInMemory(unit.mem[..])
    ensures SameOutside(old(unit.mem[..]), unit.mem[..], 0x60_0000, 0x60_4000)
  {
    ghost var m0 := unit.mem[..];
    cr3 := PGD;
    IdentityTables(unit);
    ghost var m1 := unit.mem[..];
    WindowTable(unit);
    ghost var m2 := unit.mem[..];
    Outside(m0, m1, m2);
    Alias(unit, TabIndex(0x70_0000), 0);
    Outside(m0, m2, unit.mem[..]);
    m2 := unit.mem[..];
    Alias(unit, TabIndex(0x7f_f000), 1);
    Outside(m0, m2, unit.mem[..]);
    paging := true;
    WordsOfTables(unit.mem[..]);
  }
}
