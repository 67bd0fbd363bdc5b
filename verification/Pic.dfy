/** The pair of Intel 8259A interrupt controllers and the kernel's initialisation of it. */
module Pic {
  import opened Memory

  const PIC1 := 0x20
  const PIC2 := 0xa0
  const EOI: Byte := 0x20

  /** Which word the controller expects next on its data port (A0 = 1). */
  datatype Phase = Operating | WantIcw2 | WantIcw3 | WantIcw4

  datatype Chip = Chip(phase: Phase, single: bool, needIcw4: bool, base: nat, icw3: Byte, icw4: Byte,
                       imr: Byte, isr: set<nat>)
  {
    predicate AutoEoi() { Test(icw4, 1) }
  }

  datatype Pair = Pair(master: Chip, slave: Chip)

  /** The in-service line of highest priority (lowest number) from k on, or 8. */
  function Highest(isr: set<nat>, k: nat): nat
    decreases 8 - k
  {
    if k >= 8 || k in isr then k else Highest(isr, k + 1)
  }

  /** A write to the command port: ICW1 (bit 4), OCW2 (bits 4-3 clear) or OCW3. */
  function Command(c: Chip, v: Byte): Chip {
    if Test(v, 4) then
      c.(phase := WantIcw2, single := Test(v, 1), needIcw4 := Test(v, 0), imr := 0, icw4 := 0)
    else if Test(v, 3) then c
    else if Test(v, 7) || !Test(v, 5) then c
    else c.(isr := c.isr - {if Test(v, 6) then v % 8 else Highest(c.isr, 0)})
  }

  /** A write to the data port: the pending ICW, or OCW1 (the mask) once initialised. */
  function Data(c: Chip, v: Byte): Chip {
    var afterIcw3 := if c.needIcw4 then WantIcw4 else Operating;
    match c.phase
    case WantIcw2 => c.(base := v - v % 8, phase := if c.single then afterIcw3 else WantIcw3)
    case WantIcw3 => c.(icw3 := v, phase := afterIcw3)
    case WantIcw4 => c.(icw4 := v, phase := Operating)
    case Operating => c.(imr := v)
  }

  function PortWrite(p: Pair, port: nat, v: Byte): Pair {
    if port == PIC1 then p.(master := Command(p.master, v))
    else if port == PIC1 + 1 then p.(master := Data(p.master, v))
    else if port == PIC2 then p.(slave := Command(p.slave, v))
    else if port == PIC2 + 1 then p.(slave := Data(p.slave, v))
    else p
  }

  /** What an interrupt acknowledge cycle can answer. A spurious request sets no in-service bit
      in the controller it comes from. */
  datatype Irq = Master(line: nat) | Slave(line: nat) | SpuriousMaster | SpuriousSlave {
    predicate Valid() {
      (Master? ==> line < 8 && line != 2) && (Slave? ==> line < 8)
    }
  }

  function Serve(c: Chip, line: nat): Chip {
    if c.AutoEoi() then c else c.(isr := c.isr + {line})
  }

  /** Interrupt acknowledge: the controllers' new state and the vector they send. */
  function Acknowledge(p: Pair, q: Irq): (Pair, nat) {
    match q
    case Master(n) => (p.(master := Serve(p.master, n)), p.master.base + n)
    case SpuriousMaster => (p, p.master.base + 7)
    case Slave(n) =>
      (Pair(Serve(p.master, p.slave.icw3 % 8), Serve(p.slave, n)), p.slave.base + n)
    case SpuriousSlave =>
      (p.(master := Serve(p.master, p.slave.icw3 % 8)), p.slave.base + 7)
  }

  /** What the kernel relies on: vectors from 32 and 40, the slave cascaded on line 2, 8086 mode
      and an end-of-interrupt left to software. */
  predicate Configured(p: Pair) {
    && p.master.phase == Operating && p.slave.phase == Operating
    && !p.master.single && !p.slave.single
    && p.master.base == 32 && p.slave.base == 40
    && p.master.icw3 == 4 && p.slave.icw3 == 2
    && p.master.icw4 == 1 && p.slave.icw4 == 1
    && p.master.imr == 0 && p.slave.imr == 0
  }

  class Ports {
    var pics: Pair
    var log: seq<(nat, Byte)>  // port and value of every write

    constructor (p: Pair)
      ensures pics == p && log == []
    {
      pics := p;
      log := [];
    }

    method Out(v: Byte, port: nat)
      modifies this
      ensures pics == PortWrite(old(pics), port, v) && log == old(log) + [(port, v)]
    {
      pics := PortWrite(pics, port, v);
      log := log + [(port, v)];
    }

    /** pic_init: the four initialisation words of both controllers, from any prior state. */
    method PicInit()
      modifies this
      ensures Configured(pics)
      ensures pics.master.isr == old(pics).master.isr && pics.slave.isr == old(pics).slave.isr
      ensures log == old(log) + [(0x20, 0x11), (0xa0, 0x11), (0x21, 32), (0xa1, 40), (0x21, 4), (0xa1, 2), (0x21, 1), (0xa1, 1)]
    {
      var icw1: Byte := 0x11;
      Out(icw1, PIC1);
      Out(icw1, PIC2);

      var icw2: Byte := 32;
      Out(icw2, PIC1 + 1);
      icw2 := 32 + 8;
      Out(icw2, PIC2 + 1);

      var icw3: Byte := 1 * 4;  // master: a slave on line 2
      Out(icw3, PIC1 + 1);
      icw3 := 2;  // slave: its identity
      Out(icw3, PIC2 + 1);

      var icw4: Byte := 1;
      Out(icw4, PIC1 + 1);
      Out(icw4, PIC2 + 1);
    }
  }

  /** The vector a request comes with. */
  function VectorOfIrq(q: Irq): nat {
    match q
    case Master(n) => 32 + n
    case SpuriousMaster => 39
    case Slave(n) => 40 + n
    case SpuriousSlave => 47
  }

  /** The in-service bits it sets, in the master and in the slave. */
  function Served(q: Irq): (set<nat>, set<nat>) {
    match q
    case Master(n) => ({n}, {})
    case SpuriousMaster => ({}, {})
    case Slave(n) => ({2}, {n})
    case SpuriousSlave => ({2}, {})
  }

  /** On configured controllers with nothing in service an acknowledge sends the vector of the request and
      puts it in service; one end-of-interrupt command (0x20) to the master at port 0x20, after one to the
      slave at port 0xa0 for vectors from 40, brings both back. */
  lemma EoiUndoesAcknowledge(p: Pair, q: Irq)
    requires Configured(p) && q.Valid() && p.master.isr == {} && p.slave.isr == {}
    ensures var (p1, v) := Acknowledge(p, q);
            && v == VectorOfIrq(q) && 32 <= v < 48 && (p1.master.isr, p1.slave.isr) == Served(q)
            && (q.Master? ==> v == 32 + q.line && p1.master.isr == {q.line} && p1.slave.isr == {})
            && (q.SpuriousMaster? ==> v == 39 && p1.master.isr == {} && p1.slave.isr == {})
            && (q.Slave? ==> v == 40 + q.line && p1.master.isr == {2} && p1.slave.isr == {q.line})
            && (q.SpuriousSlave? ==> v == 47 && p1.master.isr == {2} && p1.slave.isr == {})
            && (v < 40 ==> PortWrite(p1, 0x20, 0x20) == p)
            && (v >= 40 ==> PortWrite(PortWrite(p1, 0xa0, 0x20), 0x20, 0x20) == p)
  {
    var (p1, v) := Acknowledge(p, q);
    assert forall n: nat :: {} + {n} == {n};
    match q
    case Master(n) => HighestOfOne(n, 0);
    case Slave(n) => HighestOfOne(n, 0); HighestOfOne(2, 0);
    case SpuriousMaster =>
    case SpuriousSlave => HighestOfOne(2, 0);
  }

  lemma {:induction false} HighestIsLeast(isr: set<nat>, n: nat, k: nat)
    requires k <= n < 8 && n in isr && forall m :: m in isr ==> n <= m
    ensures Highest(isr, k) == n
    decreases n - k
  {
    if k < n { HighestIsLeast(isr, n, k + 1); }
  }

  /** With several lines in service an end-of-interrupt command ends the one of highest priority, the lowest
      number. */
  lemma EoiEndsHighest(c: Chip, n: nat)
    requires n < 8 && n in c.isr && forall m :: m in c.isr ==> n <= m
    ensures Command(c, 0x20) == c.(isr := c.isr - {n})
  {
    HighestIsLeast(c.isr, n, 0);
  }

  lemma {:induction false} HighestOfOne(n: nat, k: nat)
    requires k <= n < 8
    ensures Highest({n}, k) == n
    decreases n - k
  {
    if k < n { HighestOfOne(n, k + 1); }
  }
}
