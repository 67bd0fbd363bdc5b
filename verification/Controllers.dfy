/** The in-service registers of the interrupt controllers over whole runs. */
module Controllers {
  import opened Memory
  import opened Wrappers
  import opened Pic
  import opened Machine
  import opened Stack
  import opened Paths
  import opened Levels
  import opened Steps
  import opened Runs

  /** In-service bits a level still has to acknowledge, on the master and on the slave. */
  function Pending(l: Level): (set<nat>, set<nat>) {
    match l.irq
    case None => ({}, {})
    case Some(q) =>
      match q
      case Master(n) => (if l.pos <= 5 then {n} else {}, {})
      case SpuriousMaster => ({}, {})
      case Slave(n) => (if l.pos <= 7 then {2} else {}, if l.pos <= 5 then {n} else {})
      case SpuriousSlave => (if l.pos <= 7 then {2} else {}, {})
  }

  predicate IrqFits(l: Level) { l.irq.Some? ==> l.irq.value.Valid() && l.vector == VectorOfIrq(l.irq.value) }

  /** Only the outermost interruption can be a hardware request; its bits are the ones in service. */
  ghost predicate PicsGood(k: Kernel) {
    && Configured(k.cpu.pics)
    && (k.cpu.pics.master.isr, k.cpu.pics.slave.isr) == (if k.levels == [] then ({}, {}) else Pending(k.levels[0]))
    && (k.levels != [] ==> IrqFits(k.levels[0]))
    && forall j :: 1 <= j < |k.levels| ==> k.levels[j].irq == None && k.levels[j].vector < 20
  }

  /** Where the code of a program writes to a controller. */
  lemma OutPlaces(code: seq<Instr>, p: Prog, k: nat)
    requires IsProg(p) && !(p.Stub? && Reserved(p.v)) && Shape(code, p) && k < |code| && code[k].OutAl?
    ensures p.Stub? && 32 <= p.v < 48 && (k == 5 || (k == 7 && p.v >= 40))
    ensures code[k] == OutAl(if p.v >= 40 && k == 5 then PIC2 else PIC1)
  {
  }

  /** Once moved to AL, the end-of-interrupt command stays there until EAX is popped. */
  lemma AlInPath(code: seq<Instr>, a: Shadow, top: Word)
    requires |code| >= 9 && code[4] == MovAl(EOI)
    ensures ShadowAt(code, a, top, 5).r.eax % 0x100 == EOI
    ensures code[5].OutAl? && code[6].Jmp? ==> ShadowAt(code, a, top, 7).r.eax % 0x100 == EOI
  {
    var e4 := ShadowAt(code, a, top, 4);
    AlAfterMov(e4.r.eax, EOI);
    var e5 := ShadowAt(code, a, top, 5);
    assert e5 == ShadowStep(MovAl(EOI), e4, top);
    if code[5].OutAl? && code[6].Jmp? {
      assert ShadowAt(code, a, top, 6) == e5;
      assert ShadowAt(code, a, top, 7) == e5;
    }
  }

  lemma AlShaped(code: seq<Instr>, p: Prog, a: Shadow, top: Word, k: nat)
    requires IsProg(p) && p.Stub? && 32 <= p.v < 48 && Shape(code, p) && (k == 5 || (k == 7 && p.v >= 40))
    ensures k <= |code| && ShadowAt(code, a, top, k).r.eax % 0x100 == EOI
  {
    AlInPath(code, a, top);
  }

  /** The code of a program is where it should be, with the writes to the controllers in their places. */
  lemma OutPosition(env: Env, p: Prog, k: nat)
    requires Loaded(env) && IsProg(p) && k < |env.code(p)| && env.code(p)[k].OutAl?
    ensures p.Stub? && 32 <= p.v < 48 && (k == 5 || (k == 7 && p.v >= 40))
    ensures env.code(p)[k] == OutAl(if p.v >= 40 && k == 5 then PIC2 else PIC1)
  {
    InMemory(env, p);
    OutPlaces(env.code(p), p, k);
  }

  lemma OutExpected(env: Env, l: Level)
    requires Loaded(env) && IsProg(l.prog) && l.prog.Stub? && 32 <= l.prog.v < 48
    requires l.pos == 5 || (l.pos == 7 && l.prog.v >= 40)
    ensures Expected(env, l).r.eax % 0x100 == EOI
  {
    InMemory(env, l.prog);
    AlShaped(env.code(l.prog), l.prog, Shadow(l.saved.r, FrameOf(l)), LevelTop(env, l), l.pos);
  }

  lemma AlAfterMov(eax: Word, b: Byte)
    ensures (eax - eax % 0x100 + b) % 0x100 == b
  {
  }

  /** The positions the pending bits depend on are port writes. */
  lemma AckPlaces(code: seq<Instr>, p: Prog, k: nat)
    requires p.Stub? && 32 <= p.v < 48 && Shape(code, p) && k < |code|
    ensures k == 5 || (k == 7 && p.v >= 40) ==> code[k].OutAl?
    ensures code[k] == Iret ==> k > 7
  {
  }

  lemma AckPosition(env: Env, p: Prog, k: nat)
    requires Loaded(env) && p.Stub? && 32 <= p.v < 48 && k < |env.code(p)|
    ensures k == 5 || (k == 7 && p.v >= 40) ==> env.code(p)[k].OutAl?
    ensures env.code(p)[k] == Iret ==> k > 7
  {
    InMemory(env, p);
    AckPlaces(env.code(p), p, k);
  }

  /** Every other instruction leaves the pending bits as they are, and IRET comes after them. */
  lemma PendingNext(env: Env, l: Level, i: Instr)
    requires Loaded(env) && IrqFits(l) && IsProg(l.prog) && (l.irq.Some? ==> l.prog == Stub(l.vector))
    requires l.pos < |env.code(l.prog)| && i == env.code(l.prog)[l.pos] && !i.OutAl?
    ensures Pending(l.(pos := l.pos + 1)) == Pending(l)
    ensures i == Iret ==> Pending(l) == ({}, {})
  {
    if l.irq.Some? { AckPosition(env, l.prog, l.pos); }
  }

  lemma HighestOfNone(k: nat)
    requires k <= 8
    ensures Highest({}, k) == 8
    decreases 8 - k
  {
    if k < 8 { HighestOfNone(k + 1); }
  }

  lemma Emptied(n: nat)
    requires n < 8
    ensures {n} - {Highest({n}, 0)} == {} && {} - {Highest({}, 0)} == {}
  {
    HighestOfOne(n, 0);
    HighestOfNone(0);
  }

  /** What the end-of-interrupt command does to the pending bits. */
  lemma AckClears(p: Pair, l: Level)
    requires Configured(p) && IrqFits(l) && (p.master.isr, p.slave.isr) == Pending(l)
    requires 32 <= l.vector < 48 && (l.pos == 5 || (l.pos == 7 && l.vector >= 40))
    ensures var p' := PortWrite(p, if l.vector >= 40 && l.pos == 5 then PIC2 else PIC1, EOI);
      Configured(p') && (p'.master.isr, p'.slave.isr) == Pending(l.(pos := l.pos + 1))
  {
    Emptied(2);
    if l.irq.Some? && l.irq.value.Master? { Emptied(l.irq.value.line); }
    if l.irq.Some? && l.irq.value.Slave? { Emptied(l.irq.value.line); }
  }

  lemma ExecPics(env: Env, i: Instr, s: State, next: Word, after: Word)
    requires Exec(env, i, s, next, after).Some?
    ensures Exec(env, i, s, next, after).value.pics ==
      if i.OutAl? then PortWrite(s.pics, i.port, s.r.eax % 0x100) else s.pics
  {
  }

  /** A port write is an end-of-interrupt command that is due; anything else changes nothing pending. */
  ghost predicate AcksRight(k: Kernel, i: Instr)
    requires k.levels != []
  {
    var l := LastLevel(k);
    if i.OutAl? then
      && |k.levels| == 1 && 32 <= l.vector < 48 && (l.pos == 5 || (l.pos == 7 && l.vector >= 40))
      && i == OutAl(if l.vector >= 40 && l.pos == 5 then PIC2 else PIC1) && k.cpu.r.eax % 0x100 == EOI
    else |k.levels| == 1 ==> Pending(l.(pos := l.pos + 1)) == Pending(l) && (i == Iret ==> Pending(l) == ({}, {}))
  }

  lemma InstrPics(k: Kernel, i: Instr, t: State)
    requires PicsGood(k) && k.levels != [] && AcksRight(k, i)
    requires t.pics == if i.OutAl? then PortWrite(k.cpu.pics, i.port, k.cpu.r.eax % 0x100) else k.cpu.pics
    ensures PicsGood(AfterInstr(k, i, t))
  {
    if i.OutAl? { AckClears(k.cpu.pics, LastLevel(k)); }
  }

  lemma PathAcksRight(env: Env, k: Kernel, i: Instr)
    requires Loaded(env) && Good(env, k) && PicsGood(k) && k.levels != [] && IsProg(LastLevel(k).prog)
    requires LastLevel(k).pos < |env.code(LastLevel(k).prog)| && i == env.code(LastLevel(k).prog)[LastLevel(k).pos]
    requires Here(env, LastLevel(k), i)
    ensures AcksRight(k, i)
  {
    var l := LastLevel(k);
    ProgOfVector(env, k);
    if i.OutAl? {
      OutPosition(env, l.prog, l.pos);
      OutExpected(env, l);
      BeforeOut(env, k, i);
      assert k.levels[|k.levels| - 1] == l;
    } else if |k.levels| == 1 {
      PendingNext(env, l, i);
    }
  }

  lemma ProgOfVector(env: Env, k: Kernel)
    requires Good(env, k) && k.levels != []
    ensures var l := LastLevel(k);
      && (l.vector != 48 || !env.syscall ==> l.prog == Stub(l.vector))
      && (l.prog.Stub? ==> l.prog.v == l.vector)
  {
    LastProper(env, k);
  }

  lemma RunningIs(env: Env, k: Kernel, i: Instr, x: Option<State>)
    requires k.levels != [] && GoInstr(env, k, i, x).Running?
    ensures x.Some? && GoInstr(env, k, i, x).k == AfterInstr(k, i, x.value)
  {
  }

  lemma ExecutedPics(env: Env, k: Kernel, i: Instr, t: State)
    requires PicsGood(k) && k.levels != [] && AcksRight(k, i) && ExecAt(env, LastLevel(k), i, k.cpu) == Some(t)
    ensures PicsGood(AfterInstr(k, i, t))
  {
    ExecPics(env, i, k.cpu, env.at(LastLevel(k).prog, LastLevel(k).pos + 1), env.at(LastLevel(k).prog, LastLevel(k).pos + 2));
    InstrPics(k, i, t);
  }

  lemma GoStepPics(env: Env, k: Kernel)
    requires Valid(env) && Good(env, k) && PicsGood(k) && GoStep(env, k).Running?
    ensures PicsGood(GoStep(env, k).k)
  {
    var i, x := GoStepIs(env, k);
    RunningIs(env, k, i, x);
    PathAcksRight(env, k, i);
    ExecutedPics(env, k, i, x.value);
  }

  /** At a port write the registers are the expected ones. */
  lemma BeforeOut(env: Env, k: Kernel, i: Instr)
    requires Good(env, k) && k.levels != [] && Here(env, LastLevel(k), i) && i.OutAl?
    ensures k.cpu.r == Expected(env, LastLevel(k)).r
  {
    LastInv(env, k);
  }

  lemma FreshPics(p: Pair, q: Irq, k: Kernel)
    requires Configured(p) && p.master.isr == {} && p.slave.isr == {} && q.Valid()
    requires |k.levels| == 1 && k.levels[0].irq == Some(q) && k.levels[0].pos == 0
    requires (k.cpu.pics, k.levels[0].vector) == Acknowledge(p, q)
    ensures PicsGood(k)
  {
    assert forall n: nat :: {} + {n} == {n};
  }

  lemma ExternalPics(env: Env, k: Kernel, q: Irq)
    requires Valid(env) && Good(env, k) && PicsGood(k) && IfOn(k.cpu.eflags) && q.Valid()
    ensures k.levels == [] && Acknowledge(k.cpu.pics, q).1 < 256
    ensures var (pics, v) := Acknowledge(k.cpu.pics, q);
      var o := Deliver(env, k, k.cpu.(pics := pics), v, [], Some(q));
      o.Running? ==> PicsGood(o.k)
  {
    if k.levels != [] { LastInv(env, k); }
    var (pics, v) := Acknowledge(k.cpu.pics, q);
    var o := Deliver(env, k, k.cpu.(pics := pics), v, [], Some(q));
    if o.Running? {
      DeliverInv(env, k, k.cpu.(pics := pics), v, [], Some(q));
      FreshPics(k.cpu.pics, q, o.k);
    }
  }

  /** A fault, an NMI or a software interrupt does not touch the controllers. */
  lemma InternalPics(env: Env, k: Kernel, s: State, v: nat, code: seq<Word>)
    requires Valid(env) && PicsGood(k) && RingsAgree(s) && s.pics == k.cpu.pics && v < 256
    requires k.levels == [] || v < 20
    requires |code| <= (if HasErrorCode(v) then 1 else 0)
    ensures var o := Deliver(env, k, s, v, code, None);
      o.Running? ==> PicsGood(o.k)
  {
    var o := Deliver(env, k, s, v, code, None);
    if o.Running? {
      DeliverInv(env, k, s, v, code, None);
      assert k.levels != [] ==> o.k.levels[0] == k.levels[0];
    }
  }
}
