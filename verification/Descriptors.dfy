/** Interrupt gates and segment descriptors: bit layouts, the code that fills them, and the walk
    that decodes a GDT. */
module Descriptors {
  import opened Memory

  type Bit = x: int | 0 <= x < 2
  type U2 = x: int | 0 <= x < 4
  type U3 = x: int | 0 <= x < 8
  type U4 = x: int | 0 <= x < 16
  type U5 = x: int | 0 <= x < 32
  type U16 = x: int | 0 <= x < 0x1_0000

  // ---- Interrupt gates -------------------------------------------------------------------------

  /** int_desc_t, one member per bit field. */
  datatype Gate = Gate(offset1: U16, selector: U16, ist: U3, zero1: U5, kind: U4, zero2: Bit, dpl: U2,
                       p: Bit, offset2: U16)

  const INTR_GATE_32: U4 := 0xe
  const KERNEL_CODE: U16 := 8   // gdt_krn_seg_sel(1)
  const KERNEL_DATA: U16 := 16  // gdt_krn_seg_sel(2)
  const USER_CODE: U16 := 27    // gdt_usr_seg_sel(3)
  const USER_DATA: U16 := 35    // gdt_usr_seg_sel(4)

  const IDT_NR_DESC := 256
  const IDT_ISR_ALGN := 16

  /** The two dwords the CPU fetches for a gate. */
  function GateLow(g: Gate): Word {
    g.offset1 + 0x1_0000 * g.selector
  }

  function GateHigh(g: Gate): Word {
    g.ist + 8 * (g.zero1 + 32 * (g.kind + 16 * (g.zero2 + 2 * (g.dpl + 4 * (g.p + 2 * g.offset2)))))
  }

  /** The fields seen through the union when both dwords are written as raw values. */
  function GateOfRaw(low: Word, high: Word): Gate {
    var h1 := high / 8;
    var h2 := h1 / 32;
    var h3 := h2 / 16;
    var h4 := h3 / 2;
    var h5 := h4 / 4;
    Gate(low % 0x1_0000, low / 0x1_0000, high % 8, h1 % 32, h2 % 16, h3 % 2, h4 % 4, h5 % 2, h5 / 2)
  }

  /** A field of n values below the bits of rest. */
  lemma Peel(field: int, n: int, rest: int)
    requires 0 <= field < n
    ensures (field + n * rest) % n == field && (field + n * rest) / n == rest
  {
    Numerals.Divides(field + n * rest, n, rest, field);
  }

  /** The gate layout loses nothing: fields and raw dwords determine each other. */
  lemma GateLayout(g: Gate, low: Word, high: Word)
    ensures GateOfRaw(GateLow(g), GateHigh(g)) == g
    ensures GateLow(GateOfRaw(low, high)) == low && GateHigh(GateOfRaw(low, high)) == high
  {
    var r5 := g.p + 2 * g.offset2;
    var r4 := g.dpl + 4 * r5;
    var r3 := g.zero2 + 2 * r4;
    var r2 := g.kind + 16 * r3;
    var r1 := g.zero1 + 32 * r2;
    Peel(g.offset1, 0x1_0000, g.selector);
    Peel(g.ist, 8, r1);
    Peel(g.zero1, 32, r2);
    Peel(g.kind, 16, r3);
    Peel(g.zero2, 2, r4);
    Peel(g.dpl, 4, r5);
    Peel(g.p, 2, g.offset2);
  }

  /** The same by bit position: type in bits 8 to 11, privilege level in 13 and 14, present bit 15. */
  lemma GateWords(g: Gate)
    ensures GateLow(g) == g.offset1 + 0x1_0000 * g.selector
    ensures GateHigh(g) == g.ist + 8 * g.zero1 + 0x100 * g.kind + 0x1000 * g.zero2 + 0x2000 * g.dpl + 0x8000 * g.p + 0x1_0000 * g.offset2
  {
  }

  /** The dwords of a present interrupt gate into segment selector cs, all reserved bits zero. */
  predicate GateImage(g: Gate, cs: U16, isr: Word, rights: Word) {
    GateLow(g) == 0x1_0000 * cs + isr % 0x1_0000 && GateHigh(g) == rights + 0x1_0000 * (isr / 0x1_0000)
  }

  predicate Clean(g: Gate) { g.ist == 0 && g.zero1 == 0 && g.zero2 == 0 }

  lemma GateImageOf(g: Gate, cs: U16, isr: Word)
    requires Clean(g) && Offset(g) == isr && g.selector == cs && g.kind == INTR_GATE_32 && g.p == 1
    ensures GateImage(g, cs, isr, 0x8e00 + 0x2000 * g.dpl)
  {
    GateWords(g);
    Peel(g.offset1, 0x1_0000, g.offset2);
  }

  /** Entry point of a 32-bit gate (Intel SDM volume 3A, section 6.11). */
  function Offset(g: Gate): Word {
    g.offset1 + 0x1_0000 * g.offset2
  }

  /** A gate the kernel can deliver through: present 32-bit interrupt gate into kernel code. */
  predicate GateTo(g: Gate, isr: Word, dpl: U2) {
    Offset(g) == isr && g.selector == KERNEL_CODE && g.kind == INTR_GATE_32 && g.dpl == dpl && g.p == 1
  }

  /** build_int_desc: the raw assignment clears every field but the low offset. */
  method BuildIntDesc(idt: array<Gate>, i: nat, cs: U16, isr: Word)
    requires i < idt.Length
    modifies idt
    ensures idt[..] == old(idt[..])[i := idt[i]]
    ensures Offset(idt[i]) == isr && idt[i].selector == cs && idt[i].kind == INTR_GATE_32
    ensures idt[i].dpl == 0 && idt[i].p == 1 && Clean(idt[i]) && GateImage(idt[i], cs, isr, 0x8e00)
  {
    idt[i] := GateOfRaw(isr % 0x1_0000, 0);
    idt[i] := idt[i].(selector := cs);
    idt[i] := idt[i].(kind := INTR_GATE_32);
    idt[i] := idt[i].(offset2 := isr / 0x1_0000);
    idt[i] := idt[i].(p := 1);
    GateImageOf(idt[i], cs, isr);
  }

  /** intr_init: every vector v gets a ring 0 interrupt gate to trampoline + 16 v. */
  method IntrInit(idt: array<Gate>, trampoline: Word)
    requires idt.Length == IDT_NR_DESC && trampoline + IDT_NR_DESC * IDT_ISR_ALGN <= SPACE
    modifies idt
    ensures forall v :: 0 <= v < IDT_NR_DESC ==> GateTo(idt[v], trampoline + IDT_ISR_ALGN * v, 0) && Clean(idt[v])
    ensures forall v :: 0 <= v < 256 ==> GateImage(idt[v], 8, trampoline + 16 * v, 0x8e00)
  {
    var isr: int := trampoline;
    var i := 0;
    while i < IDT_NR_DESC
      invariant 0 <= i <= IDT_NR_DESC && isr == trampoline + IDT_ISR_ALGN * i
      invariant forall v :: 0 <= v < i ==> GateTo(idt[v], trampoline + IDT_ISR_ALGN * v, 0) && Clean(idt[v])
      invariant forall v :: 0 <= v < i ==> GateImage(idt[v], 8, trampoline + 16 * v, 0x8e00)
    {
      ghost var before := idt[..];
      BuildIntDesc(idt, i, KERNEL_CODE, isr);
      assert forall v :: 0 <= v < i ==> idt[..][v] == before[v];
      i := i + 1;
      isr := isr + IDT_ISR_ALGN;
    }
  }

  /** update_idt: gate 48 is redirected to the system call routine and opened to ring 3. */
  method UpdateIdt(idt: array<Gate>, syscallIsr: Word)
    requires idt.Length == IDT_NR_DESC && GateTo(idt[48], Offset(idt[48]), 0)
    modifies idt
    ensures GateTo(idt[48], syscallIsr, 3)
    ensures Clean(old(idt[48])) ==> GateImage(idt[48], 8, syscallIsr, 0xee00)
    ensures forall v :: 0 <= v < IDT_NR_DESC && v != 48 ==> idt[v] == old(idt[v])
  {
    idt[48] := idt[48].(offset1 := syscallIsr % 0x1_0000);
    idt[48] := idt[48].(offset2 := syscallIsr / 0x1_0000 % 0x1_0000);
    idt[48] := idt[48].(dpl := 3);
    if Clean(idt[48]) { GateImageOf(idt[48], KERNEL_CODE, syscallIsr); }
  }

  // ---- Placement of aligned code ------------------------------------------------------------------

  function AlignUp(a: nat, n: nat): nat
    requires n > 0
  {
    (a + n - 1) / n * n
  }

  /** Address of block i when every block is preceded by ".align 16". */
  function Placed(start: nat, sizes: seq<nat>, i: nat): nat
    requires i < |sizes|
  {
    AlignUp(if i == 0 then start else Placed(start, sizes, i - 1) + sizes[i - 1], IDT_ISR_ALGN)
  }

  /** Non-empty blocks of at most 16 bytes land exactly 16 bytes apart. */
  lemma {:induction false} AlignedPlacement(start: nat, sizes: seq<nat>, i: nat)
    requires start % 16 == 0 && i < |sizes|
    requires forall k :: 0 <= k < |sizes| ==> 1 <= sizes[k] <= 16
    ensures Placed(start, sizes, i) == start + 16 * i
  {
    if i > 0 { AlignedPlacement(start, sizes, i - 1); }
  }

  // ---- Segment descriptors ------------------------------------------------------------------------

  /** seg_desc_t, one member per bit field. */
  datatype Segment = Segment(limit1: U16, base1: U16, base2: Byte, kind: U4, s: Bit, dpl: U2, p: Bit,
                             limit2: U4, avl: Bit, l: Bit, d: Bit, g: Bit, base3: Byte)
  {
    /** First and last byte of the segment's range as the CPU computes them (SDM volume 3A, 3.4.5). */
    function Base(): Word { base1 + 0x1_0000 * base2 + 0x100_0000 * base3 }

    function EffectiveLimit(): Word {
      var raw := limit1 + 0x1_0000 * limit2;
      if g == 1 then raw * 0x1000 + 0xfff else raw
    }
  }

  function SegLow(d: Segment): Word {
    d.limit1 + 0x1_0000 * d.base1
  }

  /** The high dword in two halves of 16 bits. */
  function Access(d: Segment): U16 {
    d.base2 + 0x100 * (d.kind + 16 * (d.s + 2 * (d.dpl + 4 * d.p)))
  }

  function Flags(d: Segment): U16 {
    d.limit2 + 16 * (d.avl + 2 * (d.l + 2 * (d.d + 2 * (d.g + 2 * d.base3))))
  }

  function SegHigh(d: Segment): Word {
    Access(d) + 0x1_0000 * Flags(d)
  }

  function SegOfHalves(low: Word, access: U16, flags: U16): Segment {
    var h1 := access / 0x100;
    var h2 := h1 / 16;
    var h3 := h2 / 2;
    var f1 := flags / 16;
    var f2 := f1 / 2;
    var f3 := f2 / 2;
    var f4 := f3 / 2;
    Segment(low % 0x1_0000, low / 0x1_0000, access % 0x100, h1 % 16, h2 % 2, h3 % 4, h3 / 4,
            flags % 16, f1 % 2, f2 % 2, f3 % 2, f4 % 2, f4 / 2)
  }

  function SegOfRaw(low: Word, high: Word): Segment {
    SegOfHalves(low, high % 0x1_0000, high / 0x1_0000)
  }

  lemma AccessLayout(d: Segment)
    ensures var x := SegOfHalves(SegLow(d), Access(d), Flags(d));
      && x.base2 == d.base2 && x.kind == d.kind && x.s == d.s && x.dpl == d.dpl && x.p == d.p
      && x.limit1 == d.limit1 && x.base1 == d.base1
  {
    var r3 := d.dpl + 4 * d.p;
    var r2 := d.s + 2 * r3;
    var r1 := d.kind + 16 * r2;
    Peel(d.limit1, 0x1_0000, d.base1);
    Peel(d.base2, 0x100, r1);
    Peel(d.kind, 16, r2);
    Peel(d.s, 2, r3);
    Peel(d.dpl, 4, d.p);
  }

  lemma FlagsLayout(d: Segment)
    ensures var x := SegOfHalves(SegLow(d), Access(d), Flags(d));
      x.limit2 == d.limit2 && x.avl == d.avl && x.l == d.l && x.d == d.d && x.g == d.g && x.base3 == d.base3
  {
    var r9 := d.g + 2 * d.base3;
    var r8 := d.d + 2 * r9;
    var r7 := d.l + 2 * r8;
    var r6 := d.avl + 2 * r7;
    assert Flags(d) == d.limit2 + 16 * r6;
    Peel(d.limit2, 16, r6);
    Peel(d.avl, 2, r7);
    Peel(d.l, 2, r8);
    Peel(d.d, 2, r9);
    Peel(d.g, 2, d.base3);
  }

  /** The two dwords by bit position: type in bits 8 to 11 of the second, then the system bit, the level
      in bits 13 and 14, present bit 15, and from bit 16 on the high limit and the flags. */
  lemma SegWords(d: Segment)
    ensures SegLow(d) == d.limit1 + 0x1_0000 * d.base1
    ensures SegHigh(d) == d.base2 + 0x100 * d.kind + 0x1000 * d.s + 0x2000 * d.dpl + 0x8000 * d.p + 0x1_0000 * d.limit2
                          + 0x10_0000 * d.avl + 0x20_0000 * d.l + 0x40_0000 * d.d + 0x80_0000 * d.g + 0x100_0000 * d.base3
  {
  }

  lemma BitAt(low: nat, n: nat, bit: Bit, rest: nat)
    requires low < TwoTo(n)
    ensures Test(low + TwoTo(n) * (bit + 2 * rest), n) <==> bit == 1
  {
    TestAbove(low, n, bit + 2 * rest, 0);
  }

  lemma Powers()
    ensures TwoTo(12) == 0x1000 && TwoTo(13) == 0x2000 && TwoTo(14) == 0x4000 && TwoTo(15) == 0x8000
    ensures TwoTo(20) == 0x10_0000 && TwoTo(21) == 0x20_0000 && TwoTo(22) == 0x40_0000 && TwoTo(23) == 0x80_0000
  {
    assert TwoTo(4) == 0x10 && TwoTo(8) == 0x100;
    assert TwoTo(16) == 0x1_0000;
  }

  /** What the CPU tests in the second dword. */
  lemma SegBits(d: Segment)
    ensures var w := SegHigh(d);
      && (Test(w, 12) <==> d.s == 1) && (Test(w, 13) <==> d.dpl % 2 == 1) && (Test(w, 14) <==> d.dpl / 2 == 1)
      && (Test(w, 15) <==> d.p == 1) && (Test(w, 20) <==> d.avl == 1) && (Test(w, 21) <==> d.l == 1)
      && (Test(w, 22) <==> d.d == 1) && (Test(w, 23) <==> d.g == 1)
  {
    LowSegBits(d);
    HighSegBits(d);
  }

  lemma LowSegBits(d: Segment)
    ensures var w := SegHigh(d);
      && (Test(w, 12) <==> d.s == 1) && (Test(w, 13) <==> d.dpl % 2 == 1) && (Test(w, 14) <==> d.dpl / 2 == 1)
      && (Test(w, 15) <==> d.p == 1)
  {
    SegWords(d);
    Powers();
    var w8 := d.base2 + 0x100 * d.kind;
    var w13 := w8 + 0x1000 * d.s;
    var r16 := d.limit2 + 0x10 * (d.avl + 2 * (d.l + 2 * (d.d + 2 * (d.g + 2 * d.base3))));
    var lo, hi: Bit := d.dpl % 2, d.dpl / 2;
    BitAt(w8, 12, d.s, d.dpl + 4 * d.p + 8 * r16);
    BitAt(w13, 13, lo, hi + 2 * d.p + 4 * r16);
    BitAt(w13 + 0x2000 * lo, 14, hi, d.p + 2 * r16);
    BitAt(w13 + 0x2000 * d.dpl, 15, d.p, r16);
  }

  lemma HighSegBits(d: Segment)
    ensures var w := SegHigh(d);
      && (Test(w, 20) <==> d.avl == 1) && (Test(w, 21) <==> d.l == 1)
      && (Test(w, 22) <==> d.d == 1) && (Test(w, 23) <==> d.g == 1)
  {
    SegWords(d);
    Powers();
    var w20 := d.base2 + 0x100 * d.kind + 0x1000 * d.s + 0x2000 * d.dpl + 0x8000 * d.p + 0x1_0000 * d.limit2;
    var w21 := w20 + 0x10_0000 * d.avl;
    var w22 := w21 + 0x20_0000 * d.l;
    BitAt(w20, 20, d.avl, d.l + 2 * (d.d + 2 * (d.g + 2 * d.base3)));
    BitAt(w21, 21, d.l, d.d + 2 * (d.g + 2 * d.base3));
    BitAt(w22, 22, d.d, d.g + 2 * d.base3);
    BitAt(w22 + 0x40_0000 * d.d, 23, d.g, d.base3);
  }

  /** Packing and unpacking a segment descriptor gives it back. */
  lemma SegLayout(d: Segment)
    ensures SegOfRaw(SegLow(d), SegHigh(d)) == d
  {
    AccessLayout(d);
    FlagsLayout(d);
    Peel(Access(d), 0x1_0000, Flags(d));
  }

  lemma RawAccess(low: Word, access: U16, flags: U16)
    ensures var d := SegOfHalves(low, access, flags);
      SegLow(d) == low && Access(d) == access && Flags(d) == flags
  {
  }

  /** Unpacking and packing two dwords gives them back. */
  lemma SegRaw(low: Word, high: Word)
    ensures SegLow(SegOfRaw(low, high)) == low && SegHigh(SegOfRaw(low, high)) == high
  {
    RawAccess(low, high % 0x1_0000, high / 0x1_0000);
  }

  /** Descriptor stored at address a. */
  function SegAt(m: Space, a: int): Segment
    requires 0 <= a <= SPACE - 8
  {
    SegOfRaw(Rd32(m, a), Rd32(m, a + 4))
  }

  /** The descriptor whose 64-bit raw value is the number n. */
  function RawSegment(n: U16): Segment { Segment(n, 0, 0, 0, 0, 0, 0, 0, 0, 0, 0, 0, 0) }

  lemma RawSegmentIs(n: U16)
    ensures SegOfRaw(n, 0) == RawSegment(n)
  {
    SegLayout(RawSegment(n));
  }

  /** gdt_flat_dsc, with the AVL bit as one exercise sets it. */
  function FlatDsc(pvl: U2, kind: U4, avl: Bit): Segment {
    RawSegment(0).(limit1 := 0xffff, limit2 := 0xf, kind := kind, dpl := pvl, d := 1, g := 1, s := 1, p := 1, avl := avl)
  }

  const TSS_SIZE: Word := 8329
  const TSS_AVL_32: U4 := 9

  /** tss_dsc: the raw assignment stores sizeof(tss_t) as the limit. */
  function TssDsc(tss: Word): Segment {
    RawSegment(TSS_SIZE).(base1 := tss % 0x1_0000, base2 := tss / 0x1_0000 % 0x100,
                           base3 := tss / 0x100_0000, kind := TSS_AVL_32, p := 1)
  }

  /** One line of the GDT listing: index, first and last byte (32-bit arithmetic), and the other fields. */
  datatype Row = Row(index: nat, start: Word, end: Word, kind: U4, s: Bit, dpl: U2, p: Bit, avl: Bit, l: Bit, d: Bit, g: Bit)

  lemma LastByte(d: Segment)
    ensures var raw := d.limit2 * 0x1_0000 + d.limit1;
      && 0 <= raw < 0x10_0000
      && d.EffectiveLimit() == if d.g == 1 then raw * 0x1000 + 0xfff else raw
  {
  }

  /** The line with number k shows descriptor d, column by column. */
  ghost predicate Shows(row: Row, k: nat, d: Segment) {
    var raw := d.limit1 + 0x1_0000 * d.limit2;
    && row.index == k && row.start == d.base1 + 0x1_0000 * d.base2 + 0x100_0000 * d.base3
    && row.end == Wrap(row.start + if d.g == 1 then 0x1000 * raw + 0xfff else raw)
    && row.kind == d.kind && row.s == d.s && row.dpl == d.dpl && row.p == d.p
    && row.avl == d.avl && row.l == d.l && row.d == d.d && row.g == d.g
  }

  /** The address range computed for one descriptor: shifts and sums of 32-bit values. */
  method DecodeRow(index: nat, d: Segment) returns (row: Row)
    ensures Shows(row, index, d)
  {
    var start := d.base3 * 0x100_0000 + d.base2 * 0x1_0000 + d.base1;
    LastByte(d);
    var limit := d.limit2 * 0x1_0000 + d.limit1;
    var end;
    if d.g == 1 {
      WrapTwice(start + limit * 0x1000, 4095);
      end := Wrap(Wrap(start + Wrap(limit * 0x1000)) + 4095);
    } else {
      end := Wrap(start + limit);
    }
    row := Row(index, start, end, d.kind, d.s, d.dpl, d.p, d.avl, d.l, d.d, d.g);
  }

  /** print_gdt_content: the rows it prints, read from memory. */
  method PrintGdtContent(m: Space, addr: Word, limit: U16) returns (rows: seq<Row>)
    requires addr + limit + 8 <= SPACE
    ensures |rows| == (limit + 7) / 8
    ensures forall k :: 0 <= k < |rows| ==> Shows(rows[k], k, SegAt(m, addr + 8 * k))
  {
    var ptr: int := addr;
    var i := 0;
    rows := [];
    while ptr < addr + limit
      invariant ptr == addr + 8 * i && ptr < addr + limit + 8 && |rows| == i
      invariant forall k :: 0 <= k < |rows| ==> Shows(rows[k], k, SegAt(m, addr + 8 * k))
    {
      var row := DecodeRow(i, SegAt(m, ptr));
      rows := rows + [row];
      ptr := ptr + 8;
      i := i + 1;
    }
  }

  /** The descriptors ds lie in memory from address a on. */
  ghost predicate TableAt(m: Space, a: int, ds: seq<Segment>)
    requires 0 <= a && a + 8 * |ds| <= SPACE
  {
    forall k :: 0 <= k < |ds| ==> WordsOf(m, a + 8 * k, ds[k])
  }

  /** The two dwords of d at address a. */
  ghost predicate WordsOf(m: Space, a: int, d: Segment)
    requires 0 <= a <= SPACE - 8
  {
    Rd32(m, a) == SegLow(d) && Rd32(m, a + 4) == SegHigh(d)
  }

  lemma SegRead(m: Space, a: int, d: Segment)
    requires 0 <= a <= SPACE - 8 && WordsOf(m, a, d)
    ensures SegAt(m, a) == d
  {
    SegLayout(d);
  }

  /** The descriptor read at an address is the one whose dwords lie there. */
  lemma SegAtWords(m: Space, a: int)
    requires 0 <= a <= SPACE - 8
    ensures WordsOf(m, a, SegAt(m, a))
  {
    SegRaw(Rd32(m, a), Rd32(m, a + 4));
  }

  /** A flat descriptor spans the whole address space, at the privilege and type asked for. */
  lemma FlatEncoding(pvl: U2, kind: U4, avl: Bit)
    ensures var d := FlatDsc(pvl, kind, avl);
      && d.Base() == 0 && d.EffectiveLimit() == SPACE - 1 && d.dpl == pvl && d.kind == kind && d.p == 1 && d.s == 1
      && d.avl == avl && d.l == 0 && d.d == 1 && d.g == 1
  {
  }

  lemma SplitBase(w: Word)
    ensures w % 0x1_0000 + 0x1_0000 * (w / 0x1_0000 % 0x100) + 0x100_0000 * (w / 0x100_0000) == w
  {
    var h := w / 0x1_0000;
    assert w / 0x100_0000 == h / 0x100;
  }

  /** A TSS descriptor starts at the TSS; its limit is the size, so it spans one byte more. */
  lemma TssEncoding(tss: Word)
    ensures var d := TssDsc(tss);
      && d.Base() == tss && d.EffectiveLimit() == TSS_SIZE && d.dpl == 0 && d.kind == TSS_AVL_32 && d.p == 1 && d.s == 0
      && d.avl == 0 && d.l == 0 && d.d == 0 && d.g == 0
  {
    SplitBase(tss);
  }

  // ---- The table of the segmentation exercises ------------------------------------------------------------

  const CODE_XR: U4 := 0xa
  const DATA_RW: U4 := 2
  const TASK: U16 := 40  // gdt_krn_seg_sel(5)

  /** Null, flat code and data for both rings, and the TSS. */
  function ExerciseGdt(avl: Bit, task: Segment): seq<Segment> {
    [RawSegment(0), FlatDsc(0, CODE_XR, avl), FlatDsc(0, DATA_RW, 0), FlatDsc(3, CODE_XR, avl), FlatDsc(3, DATA_RW, 0), task]
  }

  /** The table in memory, dword by dword. */
  ghost predicate GdtImage(m: Space, gdt: Word, tss: Word, avl: Bit)
    requires gdt + 48 <= SPACE
  {
    && Rd32(m, gdt) == 0 && Rd32(m, gdt + 4) == 0
    && Rd32(m, gdt + 8) == 0xffff && Rd32(m, gdt + 12) == 0x00cf_9a00 + 0x10_0000 * avl
    && Rd32(m, gdt + 16) == 0xffff && Rd32(m, gdt + 20) == 0x00cf_9200
    && Rd32(m, gdt + 24) == 0xffff && Rd32(m, gdt + 28) == 0x00cf_fa00 + 0x10_0000 * avl
    && Rd32(m, gdt + 32) == 0xffff && Rd32(m, gdt + 36) == 0x00cf_f200
    && Rd32(m, gdt + 40) == 0x2089 + 0x1_0000 * (tss % 0x1_0000)
    && Rd32(m, gdt + 44) == tss / 0x1_0000 % 0x100 + 0x8900 + 0x100_0000 * (tss / 0x100_0000)
  }

  /** The same by number of descriptor. */
  function LowWord(k: nat, tss: Word): Word {
    if k == 0 then 0 else if k < 5 then 0xffff else 0x2089 + 0x1_0000 * (tss % 0x1_0000)
  }

  function HighWord(k: nat, tss: Word, avl: Bit): Word {
    if k == 0 then 0
    else if k == 1 then 0x00cf_9a00 + 0x10_0000 * avl
    else if k == 2 then 0x00cf_9200
    else if k == 3 then 0x00cf_fa00 + 0x10_0000 * avl
    else if k == 4 then 0x00cf_f200
    else tss / 0x1_0000 % 0x100 + 0x8900 + 0x100_0000 * (tss / 0x100_0000)
  }

  lemma ImageByWords(m: Space, gdt: Word, tss: Word, avl: Bit)
    requires gdt + 48 <= SPACE
    requires forall k :: 0 <= k < 6 ==> Rd32(m, gdt + 8 * k) == LowWord(k, tss) && Rd32(m, gdt + 8 * k + 4) == HighWord(k, tss, avl)
    ensures GdtImage(m, gdt, tss, avl)
  {
    assert Rd32(m, gdt + 8 * 0) == LowWord(0, tss) && Rd32(m, gdt + 8 * 1) == LowWord(1, tss);
    assert Rd32(m, gdt + 8 * 2) == LowWord(2, tss) && Rd32(m, gdt + 8 * 3) == LowWord(3, tss);
    assert Rd32(m, gdt + 8 * 4) == LowWord(4, tss) && Rd32(m, gdt + 8 * 5) == LowWord(5, tss);
  }

  /** In memory a TSS descriptor has size 0x2089, type 9 and is present. */
  lemma TssWords(tss: Word, avl: Bit)
    ensures NthWords(TssDsc(tss), 5, tss, avl)
  {
    SegWords(TssDsc(tss));
  }

  ghost predicate NthWords(d: Segment, k: nat, tss: Word, avl: Bit) {
    SegLow(d) == LowWord(k, tss) && SegHigh(d) == HighWord(k, tss, avl)
  }

  lemma ZeroHigh(d: Segment)
    requires d.base2 == 0 && d.kind == 0 && d.s == 0 && d.dpl == 0 && d.p == 0
    requires d.limit2 == 0 && d.avl == 0 && d.l == 0 && d.d == 0 && d.g == 0 && d.base3 == 0
    ensures SegHigh(d) == 0
  {
    SegWords(d);
  }

  lemma ZeroLow(d: Segment)
    requires d.limit1 == 0 && d.base1 == 0
    ensures SegLow(d) == 0
  {
  }

  lemma NthZero(tss: Word, avl: Bit)
    ensures LowWord(0, tss) == 0 && HighWord(0, tss, avl) == 0
  {
  }

  lemma NullWords(d: Segment, tss: Word, avl: Bit)
    requires d == RawSegment(0)
    ensures NthWords(d, 0, tss, avl)
  {
    ZeroLow(d);
    ZeroHigh(d);
    NthZero(tss, avl);
  }

  lemma FlatWords(d: Segment, k: nat, tss: Word, avl: Bit)
    requires 1 <= k < 5 && d == FlatDsc(if k < 3 then 0 else 3, if k % 2 == 1 then CODE_XR else DATA_RW, if k % 2 == 1 then avl else 0)
    ensures NthWords(d, k, tss, avl)
  {
    SegWords(d);
  }

  lemma ImageOf(m: Space, gdt: Word, tss: Word, avl: Bit, ds: seq<Segment>)
    requires gdt + 48 <= SPACE && |ds| == 6 && TableAt(m, gdt, ds)
    requires forall k :: 0 <= k < 6 ==> NthWords(ds[k], k, tss, avl)
    ensures GdtImage(m, gdt, tss, avl)
  {
    forall k | 0 <= k < 6
      ensures Rd32(m, gdt + 8 * k) == LowWord(k, tss) && Rd32(m, gdt + 8 * k + 4) == HighWord(k, tss, avl)
    {
      assert WordsOf(m, gdt + 8 * k, ds[k]) && NthWords(ds[k], k, tss, avl);
    }
    ImageByWords(m, gdt, tss, avl);
  }

  lemma ExerciseWords(tss: Word, avl: Bit, ds: seq<Segment>)
    requires |ds| == 6 && ds[0] == RawSegment(0) && ds[5] == TssDsc(tss)
    requires ds[1] == FlatDsc(0, CODE_XR, avl) && ds[2] == FlatDsc(0, DATA_RW, 0)
    requires ds[3] == FlatDsc(3, CODE_XR, avl) && ds[4] == FlatDsc(3, DATA_RW, 0)
    ensures forall k :: 0 <= k < 6 ==> NthWords(ds[k], k, tss, avl)
  {
    forall k | 0 <= k < 6
      ensures NthWords(ds[k], k, tss, avl)
    {
      if k == 0 { NullWords(ds[0], tss, avl); }
      else if k == 5 { TssWords(tss, avl); }
      else { FlatWords(ds[k], k, tss, avl); }
    }
  }

  lemma SixItems(ds: seq<Segment>, d0: Segment, d1: Segment, d2: Segment, d3: Segment, d4: Segment, d5: Segment)
    requires ds == [d0, d1, d2, d3, d4, d5]
    ensures |ds| == 6 && ds[0] == d0 && ds[1] == d1 && ds[2] == d2 && ds[3] == d3 && ds[4] == d4 && ds[5] == d5
  {
  }

  lemma ExerciseNth(tss: Word, avl: Bit, ds: seq<Segment>)
    requires ds == ExerciseGdt(avl, TssDsc(tss))
    ensures |ds| == 6 && forall k :: 0 <= k < 6 ==> NthWords(ds[k], k, tss, avl)
  {
    SixItems(ds, RawSegment(0), FlatDsc(0, CODE_XR, avl), FlatDsc(0, DATA_RW, 0), FlatDsc(3, CODE_XR, avl), FlatDsc(3, DATA_RW, 0), TssDsc(tss));
    ExerciseWords(tss, avl, ds);
  }

  lemma ImageOfTable(m: Space, gdt: Word, tss: Word, avl: Bit, ds: seq<Segment>)
    requires gdt + 48 <= SPACE && ds == ExerciseGdt(avl, TssDsc(tss)) && TableAt(m, gdt, ds)
    ensures GdtImage(m, gdt, tss, avl)
  {
    ExerciseNth(tss, avl, ds);
    ImageOf(m, gdt, tss, avl, ds);
  }

  /** The selectors the kernel uses lead, in that table, to code and data of their own level: bits 0 and 1 of
      the selector are the level, bit 2 is clear, and the rest is the offset of the descriptor. */
  lemma SelectorsFit(m: Space, gdt: Word, tss: Word, avl: Bit)
    requires gdt + 48 <= SPACE && GdtImage(m, gdt, tss, avl)
    ensures KERNEL_CODE % 8 == 0 && Rd32(m, gdt + KERNEL_CODE / 8 * 8 + 4) == 0x00cf_9a00 + 0x10_0000 * avl
    ensures KERNEL_DATA % 8 == 0 && Rd32(m, gdt + KERNEL_DATA / 8 * 8 + 4) == 0x00cf_9200
    ensures USER_CODE % 8 == 3 && Rd32(m, gdt + USER_CODE / 8 * 8 + 4) == 0x00cf_fa00 + 0x10_0000 * avl
    ensures USER_DATA % 8 == 3 && Rd32(m, gdt + USER_DATA / 8 * 8 + 4) == 0x00cf_f200
    ensures TASK % 8 == 0 && Rd32(m, gdt + TASK / 8 * 8) % 0x1_0000 == 0x2089
  {
  }

  lemma WordsKept(m: Space, m': Space, lo: int, hi: int, a: int, d: Segment)
    requires 0 <= a <= SPACE - 8 && SameOutside(m, m', lo, hi) && (a + 8 <= lo || hi <= a) && WordsOf(m, a, d)
    ensures WordsOf(m', a, d)
  {
    LoadCongruence(m, m', a);
    LoadCongruence(m, m', a + 4);
  }

  /** A descriptor written as two dwords is read back field for field. */
  method StoreSegment(mem: array<Byte>, a: int, d: Segment)
    requires mem.Length == SPACE && 0 <= a <= SPACE - 8
    modifies mem
    ensures Rd32(mem[..], a) == d.limit1 + 0x1_0000 * d.base1
    ensures Rd32(mem[..], a + 4) ==
      d.base2 + 0x100 * d.kind + 0x1000 * d.s + 0x2000 * d.dpl + 0x8000 * d.p + 0x1_0000 * d.limit2
      + 0x10_0000 * d.avl + 0x20_0000 * d.l + 0x40_0000 * d.d + 0x80_0000 * d.g + 0x100_0000 * d.base3
    ensures WordsOf(mem[..], a, d) && SegAt(mem[..], a) == d && SameOutside(old(mem[..]), mem[..], a, a + 8)
  {
    ghost var m0 := mem[..];
    StoreThenLoad(m0, a, SegLow(d));
    StoreDword(mem, a, SegLow(d));
    ghost var m1 := mem[..];
    StoreThenLoad(m1, a + 4, SegHigh(d));
    StoreDword(mem, a + 4, SegHigh(d));
    LoadCongruence(m1, mem[..], a);
    SegWords(d);
    SegRead(mem[..], a, d);
  }

  /** init_gdt and the TSS descriptor. */
  method InitGdt(mem: array<Byte>, gdt: Word, tss: Word, avl: Bit)
    requires mem.Length == SPACE && gdt + 48 <= SPACE
    modifies mem
    ensures GdtImage(mem[..], gdt, tss, avl) && SameOutside(old(mem[..]), mem[..], gdt, gdt + 48)
    ensures TableAt(mem[..], gdt, ExerciseGdt(avl, TssDsc(tss)))
  {
    var ds := ExerciseGdt(avl, TssDsc(tss));
    var i := 0;
    while i < 6
      invariant 0 <= i <= 6 && TableAt(mem[..], gdt, ds[..i])
      invariant SameOutside(old(mem[..]), mem[..], gdt, gdt + 48)
    {
      ghost var before := mem[..];
      StoreSegment(mem, gdt + 8 * i, ds[i]);
      OneMoreSegment(before, mem[..], gdt, ds, i);
      i := i + 1;
    }
    assert ds[..6] == ds;
    ImageOfTable(mem[..], gdt, tss, avl, ExerciseGdt(avl, TssDsc(tss)));
  }

  lemma OneMoreSegment(m: Space, m': Space, a: int, ds: seq<Segment>, i: nat)
    requires i < |ds| && 0 <= a && a + 8 * |ds| <= SPACE && TableAt(m, a, ds[..i])
    requires SameOutside(m, m', a + 8 * i, a + 8 * i + 8) && WordsOf(m', a + 8 * i, ds[i])
    ensures TableAt(m', a, ds[..i + 1])
  {
    forall k | 0 <= k < i + 1
      ensures WordsOf(m', a + 8 * k, ds[..i + 1][k])
    {
      if k < i { WordsKept(m, m', a + 8 * i, a + 8 * i + 8, a + 8 * k, ds[..i][k]); }
    }
  }

  /** What the CPU loads when ring 3 is interrupted: ESP and SS of ring 0, from the TSS that the
      descriptor in the task register leads to (SDM volume 3A, section 7.2.1). */
  function RingZeroStack(m: Space, gdt: Word, task: U16): (Word, nat) {
    if gdt + task / 8 * 8 + 8 > SPACE then (0, 0)
    else
      var tss := SegAt(m, gdt + task / 8 * 8).Base();
      if tss + 10 > SPACE then (0, 0) else (Rd32(m, tss + 4), Load(m, tss + 8, 2))
  }

  /** TSS.s0 */
  method SetRingZero(mem: array<Byte>, tss: Word, esp: Word, ss: U16)
    requires mem.Length == SPACE && tss + TSS_SIZE <= SPACE
    modifies mem
    ensures Rd32(mem[..], tss + 4) == esp && Load(mem[..], tss + 8, 2) == ss
    ensures SameOutside(old(mem[..]), mem[..], tss, tss + TSS_SIZE)
  {
    StoreThenLoad(mem[..], tss + 4, esp);
    StoreDword(mem, tss + 4, esp);
    ghost var m := mem[..];
    StoreWord16(mem, tss + 8, ss % 0x100, ss / 0x100);
    LoadCongruence(m, mem[..], tss + 4);
  }

  /** The GDT with its TSS descriptor, and the ring 0 stack in the TSS: ESP at offset 4 and SS at offset 8,
      found through selector 40. */
  method InitTask(mem: array<Byte>, gdt: Word, tss: Word, avl: Bit, ebp: Word)
    requires mem.Length == SPACE && gdt + 48 <= SPACE && tss + TSS_SIZE <= SPACE
    requires gdt + 48 <= tss || tss + TSS_SIZE <= gdt
    modifies mem
    ensures GdtImage(mem[..], gdt, tss, avl) && TableAt(mem[..], gdt, ExerciseGdt(avl, TssDsc(tss)))
    ensures Rd32(mem[..], tss + 4) == ebp && Load(mem[..], tss + 8, 2) == 16
    ensures RingZeroStack(mem[..], gdt, 40) == (ebp, 16)
  {
    InitGdt(mem, gdt, tss, avl);
    ghost var m := mem[..];
    SetRingZero(mem, tss, ebp, KERNEL_DATA);
    TableKept(m, mem[..], gdt, ExerciseGdt(avl, TssDsc(tss)), tss, tss + TSS_SIZE);
    ImageOfTable(mem[..], gdt, tss, avl, ExerciseGdt(avl, TssDsc(tss)));
    TaskBase(tss, avl);
    StackFound(mem[..], gdt, ExerciseGdt(avl, TssDsc(tss)), tss);
  }

  lemma TaskBase(tss: Word, avl: Bit)
    ensures ExerciseGdt(avl, TssDsc(tss))[5].Base() == tss
  {
    TssEncoding(tss);
  }

  lemma StackFound(m: Space, gdt: Word, ds: seq<Segment>, tss: Word)
    requires gdt + 48 <= SPACE && tss + TSS_SIZE <= SPACE && |ds| == 6 && TableAt(m, gdt, ds) && ds[5].Base() == tss
    ensures RingZeroStack(m, gdt, 40) == (Rd32(m, tss + 4), Load(m, tss + 8, 2))
  {
    SegRead(m, gdt + 8 * 5, ds[5]);
  }

  lemma TableKept(m: Space, m': Space, a: int, ds: seq<Segment>, lo: int, hi: int)
    requires 0 <= a && a + 8 * |ds| <= SPACE && TableAt(m, a, ds)
    requires SameOutside(m, m', lo, hi) && (a + 8 * |ds| <= lo || hi <= a)
    ensures TableAt(m', a, ds)
  {
    forall k | 0 <= k < |ds|
      ensures WordsOf(m', a + 8 * k, ds[k])
    {
      WordsKept(m, m', lo, hi, a + 8 * k, ds[k]);
    }
  }

  lemma FlatRow(row: Row, index: nat, pvl: U2, kind: U4, avl: Bit)
    requires Shows(row, index, FlatDsc(pvl, kind, avl))
    ensures row == Row(index, 0, 0xffff_ffff, kind, 1, pvl, 1, avl, 0, 1, 1)
  {
  }

  lemma TssRow(row: Row, index: nat, tss: Word)
    requires Shows(row, index, TssDsc(tss))
    ensures row == Row(index, tss, Wrap(tss + 8329), 9, 0, 0, 1, 0, 0, 0, 0)
  {
    SplitBase(tss);
  }

  /** The line of descriptor k in the listing of the exercise's table. */
  function Line(k: nat, tss: Word, avl: Bit): Row
    requires 1 <= k <= 5
  {
    if k == 5 then Row(5, tss, Wrap(tss + 8329), 9, 0, 0, 1, 0, 0, 0, 0)
    else Row(k, 0, 0xffff_ffff, if k % 2 == 1 then 10 else 2, 1, if k < 3 then 0 else 3, 1, if k % 2 == 1 then avl else 0, 0, 1, 1)
  }

  lemma LineOf(row: Row, k: nat, d: Segment, tss: Word, avl: Bit)
    requires 1 <= k <= 5 && Shows(row, k, d)
    requires d == if k == 5 then TssDsc(tss)
                  else FlatDsc(if k < 3 then 0 else 3, if k % 2 == 1 then CODE_XR else DATA_RW, if k % 2 == 1 then avl else 0)
    ensures row == Line(k, tss, avl)
  {
    if k == 5 {
      TssRow(row, 5, tss);
    } else {
      FlatRow(row, k, d.dpl, d.kind, d.avl);
    }
  }

  lemma Item(ds: seq<Segment>, k: nat, tss: Word, avl: Bit)
    requires 1 <= k <= 5 && ds == ExerciseGdt(avl, TssDsc(tss))
    ensures ds[k] == if k == 5 then TssDsc(tss)
                     else FlatDsc(if k < 3 then 0 else 3, if k % 2 == 1 then CODE_XR else DATA_RW, if k % 2 == 1 then avl else 0)
  {
  }

  lemma LineAt(m: Space, gdt: Word, ds: seq<Segment>, k: nat, row: Row)
    requires gdt + 8 * |ds| <= SPACE && TableAt(m, gdt, ds) && k < |ds| && Shows(row, k, SegAt(m, gdt + 8 * k))
    ensures Shows(row, k, ds[k])
  {
    SegRead(m, gdt + 8 * k, ds[k]);
  }

  lemma LineShown(m: Space, gdt: Word, tss: Word, avl: Bit, k: nat, row: Row)
    requires gdt + 48 <= SPACE && TableAt(m, gdt, ExerciseGdt(avl, TssDsc(tss))) && 1 <= k <= 5
    requires Shows(row, k, SegAt(m, gdt + 8 * k))
    ensures row == Line(k, tss, avl)
  {
    var ds := ExerciseGdt(avl, TssDsc(tss));
    LineAt(m, gdt, ds, k, row);
    Item(ds, k, tss, avl);
    LineOf(row, k, ds[k], tss, avl);
  }

  /** What the listing of that table shows: code (type 10) and data (type 2) from 0 to 0xffffffff at levels
      0 and 3, and the TSS (type 9) from its address on. Its limit is its size, so the last byte shown is
      the one after it. */
  lemma ListingOfExercise(m: Space, gdt: Word, tss: Word, avl: Bit, rows: seq<Row>)
    requires gdt + 48 <= SPACE && TableAt(m, gdt, ExerciseGdt(avl, TssDsc(tss)))
    requires |rows| == 6 && forall k :: 0 <= k < |rows| ==> Shows(rows[k], k, SegAt(m, gdt + 8 * k))
    ensures rows[1] == Row(1, 0, 0xffff_ffff, 10, 1, 0, 1, avl, 0, 1, 1)
    ensures rows[2] == Row(2, 0, 0xffff_ffff, 2, 1, 0, 1, 0, 0, 1, 1)
    ensures rows[3] == Row(3, 0, 0xffff_ffff, 10, 1, 3, 1, avl, 0, 1, 1)
    ensures rows[4] == Row(4, 0, 0xffff_ffff, 2, 1, 3, 1, 0, 0, 1, 1)
    ensures rows[5] == Row(5, tss, Wrap(tss + 8329), 9, 0, 0, 1, 0, 0, 0, 0)
  {
    LineShown(m, gdt, tss, avl, 1, rows[1]);
    LineShown(m, gdt, tss, avl, 2, rows[2]);
    LineShown(m, gdt, tss, avl, 3, rows[3]);
    LineShown(m, gdt, tss, avl, 4, rows[4]);
    LineShown(m, gdt, tss, avl, 5, rows[5]);
  }
}
