/** The interrupt path cannot fault, and when interrupts are acknowledged. */
module Progress {
  import opened Memory
  import opened Wrappers
  import opened Pic
  import opened Descriptors
  import opened Machine
  import opened Stack
  import opened Paths
  import opened Levels
  import opened Steps
  import opened Runs
  import opened Controllers
  import opened Guarantees

  /** Bytes the largest single instruction of the path (pusha) takes. */
  const MARGIN := 32

  lemma BeforeCallRuns(env: Env, l: Level, s: State, i: Instr, e: Shadow, next: Word, after: Word)
    requires Match(env, s, e, LevelTop(env, l)) && (Straight(i, e, LevelTop(env, l)) || i == Call)
    requires s.esp >= env.lo + MARGIN
    ensures Exec(env, i, s, next, after).Some?
  {
  }

  lemma FrameReturns(env: Env, s: State, u: State, top: int)
    requires Cpl(s) == 0 && (Cpl(u) == 0 || Cpl(u) == 3)
    requires env.lo <= s.esp && s.esp + 4 * |Frame(u, [])| <= top <= env.hi <= SPACE
    requires Holds(s.mem, s.esp, Frame(u, []))
    ensures IretFrom(env, s).Some?
  {
    HoldsAt(s.mem, s.esp, Frame(u, []), 1);
  }

  lemma AfterHandlerRuns(env: Env, l: Level, s: State, i: Instr, next: Word, after: Word)
    requires Common(env, l, s) && l.pos > RetIdx(l.prog) && !BareIret(l) && AfterHandler(env, l, s)
    requires i == (if l.pos == RetIdx(l.prog) + 1 then Popa else if l.prog.Stub? && l.pos == RetIdx(l.prog) + 2 then AddEsp(8) else Iret)
    ensures Exec(env, i, s, next, after).Some?
  {
    ContextFits(env, l);
    if i == Iret { FrameReturns(env, s, l.saved, LevelTop(env, l)); }
  }

  /** On its way to the handler, the topmost interruption has 32 bytes of stack left. */
  ghost predicate HasRoom(env: Env, k: Kernel)
    requires k.levels != [] && IsProg(LastLevel(k).prog)
  {
    !BareIret(LastLevel(k)) && LastLevel(k).pos < RetIdx(LastLevel(k).prog) ==> k.cpu.esp >= env.lo + MARGIN
  }

  /** With 32 bytes of stack left on the way to the handler, and with none on the way back, every
      instruction of the path executes: no pop leaves the stack, and IRET never meets a selector of an
      inner ring. Only a handler can hold a run up, by not being ready to return or by panicking. */
  lemma PathNeverFaults(env: Env, k: Kernel)
    requires Valid(env) && Sound(env, k) && k.levels != [] && IsProg(LastLevel(k).prog) && HasRoom(env, k)
    ensures GoStep(env, k).Running? || (GoStep(env, k).why.NotEnabled? || GoStep(env, k).why.Panic?)
    ensures var l := LastLevel(k);
      !(l.pos < |env.code(l.prog)| && env.code(l.prog)[l.pos] == Ret) ==> GoStep(env, k).Running?
  {
    var i, x := GoStepIs(env, k);
    NotWild(env, k, i, x);
    if i != Ret || k.cpu.esp == LastLevel(k).base { TopRuns(env, k, i); }
  }

  lemma BareRuns(env: Env, k: Kernel)
    requires Good(env, k) && k.levels != [] && BareIret(LastLevel(k))
    ensures ExecAt(env, LastLevel(k), Iret, k.cpu).Some?
  {
    LastInv(env, k);
    FrameReturns(env, k.cpu, LastLevel(k).saved, LevelTop(env, LastLevel(k)));
    IretIs(env, k.cpu, env.at(LastLevel(k).prog, LastLevel(k).pos + 1), env.at(LastLevel(k).prog, LastLevel(k).pos + 2));
  }

  lemma RunsBefore(env: Env, k: Kernel, i: Instr)
    requires Good(env, k) && k.levels != [] && !BareIret(LastLevel(k)) && Here(env, LastLevel(k), i)
    requires LastLevel(k).pos < RetIdx(LastLevel(k).prog) && k.cpu.esp >= env.lo + MARGIN
    ensures ExecAt(env, LastLevel(k), i, k.cpu).Some?
  {
    var l := LastLevel(k);
    LastInv(env, k);
    BeforeCallRuns(env, l, k.cpu, i, Expected(env, l), env.at(l.prog, l.pos + 1), env.at(l.prog, l.pos + 2));
  }

  lemma RunsAfter(env: Env, k: Kernel, i: Instr)
    requires Good(env, k) && k.levels != [] && !BareIret(LastLevel(k)) && Here(env, LastLevel(k), i)
    requires LastLevel(k).pos > RetIdx(LastLevel(k).prog)
    ensures ExecAt(env, LastLevel(k), i, k.cpu).Some?
  {
    var l := LastLevel(k);
    LastInv(env, k);
    AfterHandlerRuns(env, l, k.cpu, i, env.at(l.prog, l.pos + 1), env.at(l.prog, l.pos + 2));
  }

  lemma RunsRet(env: Env, k: Kernel)
    requires Good(env, k) && Handling(k) && k.cpu.esp == LastLevel(k).base
    ensures ExecAt(env, LastLevel(k), Ret, k.cpu).Some?
  {
    LastInv(env, k);
    RetIs(env, k.cpu, env.at(LastLevel(k).prog, LastLevel(k).pos + 1), env.at(LastLevel(k).prog, LastLevel(k).pos + 2));
  }

  lemma PlaceOf(env: Env, l: Level, i: Instr, e: Shadow, e': Shadow)
    requires IsProg(l.prog) && l.pos < CodeLength(l.prog) && Position(env, l, i, e, e')
    ensures BareIret(l) ==> i == Iret
    ensures !BareIret(l) && l.pos == RetIdx(l.prog) ==> i == Ret
  {
  }

  lemma TopRuns(env: Env, k: Kernel, i: Instr)
    requires Good(env, k) && k.levels != [] && IsProg(LastLevel(k).prog) && LastLevel(k).pos < CodeLength(LastLevel(k).prog)
    requires Here(env, LastLevel(k), i) && HasRoom(env, k)
    requires i == Ret ==> k.cpu.esp == LastLevel(k).base
    ensures ExecAt(env, LastLevel(k), i, k.cpu).Some?
  {
    var l := LastLevel(k);
    PlaceOf(env, l, i, Expected(env, l), Expected(env, l.(pos := l.pos + 1)));
    if BareIret(l) {
      BareRuns(env, k);
    } else if l.pos < RetIdx(l.prog) {
      RunsBefore(env, k, i);
    } else if l.pos > RetIdx(l.prog) {
      RunsAfter(env, k, i);
    } else {
      RunsRet(env, k);
    }
  }

  /** An interruption is accepted whenever its frame fits. */
  lemma FaultAccepted(env: Env, k: Kernel, v: nat)
    requires Valid(env) && v < 20 && !HasErrorCode(v)
    requires FrameTop(env, k.cpu) >= env.lo + 20 && FrameTop(env, k.cpu) <= env.hi
    ensures var o := Step(env, k, Fault(v, []));
      && o.Running? && o.k.levels != [] && LastLevel(o.k).prog == Stub(v) && LastLevel(o.k).pos == 0
      && o.k.cpu.pics == k.cpu.pics && o.k.cpu.esp >= FrameTop(env, k.cpu) - 20
  {
    EntryOfGate(env, v);
  }

  // ---- Acknowledgement ----------------------------------------------------------------------------------

  lemma PushaPlace(code: seq<Instr>, p: Prog, k: nat)
    requires IsProg(p) && !(p.Stub? && Reserved(p.v)) && Shape(code, p) && k < |code| && code[k] == Pusha
    ensures p.Stub? && 32 <= p.v < 40 ==> k == 7
    ensures p.Stub? && 40 <= p.v < 48 ==> k == 9
  {
  }

  /** A hardware interruption whose end-of-interrupt code has not finished. */
  predicate AckAhead(l: Level) {
    match l.irq
    case None => false
    case Some(q) =>
      match q
      case Master(_) => l.pos <= 5
      case SpuriousMaster => false
      case Slave(_) => l.pos <= 7
      case SpuriousSlave => l.pos <= 7
  }

  lemma AckedAtPusha(env: Env, l: Level)
    requires Loaded(env) && Proper(env, l) && IrqFits(l) && l.prog.Stub?
    requires l.pos < |env.code(l.prog)| && env.code(l.prog)[l.pos] == Pusha
    ensures !AckAhead(l)
  {
    InMemory(env, l.prog);
    PushaPlace(env.code(l.prog), l.prog, l.pos);
  }

  predicate NothingInService(p: Pair) { p.master.isr == {} && p.slave.isr == {} }

  lemma InServiceExactly(k: Kernel)
    requires PicsGood(k) && k.levels != []
    ensures NothingInService(k.cpu.pics) <==> !AckAhead(k.levels[0])
  {
  }

  /** The topmost interruption is about to save the registers in idt_common. */
  ghost predicate AtCommon(env: Env, k: Kernel) {
    && k.levels != []
    && var l := LastLevel(k);
      IsProg(l.prog) && l.prog.Stub? && l.pos < |env.code(l.prog)| && env.code(l.prog)[l.pos] == Pusha
  }

  /** On entry to idt_common both in-service registers are empty, except exactly when the entry comes
      from an NMI or exception that hit a hardware interrupt before its last end-of-interrupt command:
      a request of the master up to position 5 of its code, one of the slave up to position 7. */
  lemma AcknowledgedAtCommon(env: Env, k: Kernel)
    requires Valid(env) && Sound(env, k) && AtCommon(env, k)
    ensures NothingInService(k.cpu.pics) <==> !(|k.levels| > 1 && AckAhead(k.levels[0]))
  {
    LastProper(env, k);
    InServiceExactly(k);
    if |k.levels| == 1 { AckedAtPusha(env, LastLevel(k)); }
  }

  lemma FaultlessStep(env: Env, k: Kernel, e: Event)
    requires Valid(env) && Sound(env, k) && |k.levels| <= 1 && !e.Fault? && Step(env, k, e).Running?
    ensures |Step(env, k, e).k.levels| <= 1
  {
    if k.levels != [] { HandlersUninterrupted(env, k); }
  }

  lemma HandlersUninterrupted(env: Env, k: Kernel)
    requires Sound(env, k) && k.levels != []
    ensures !IfOn(k.cpu.eflags)
  {
    LastInv(env, k);
  }

  lemma {:induction false} FaultlessRun(env: Env, k: Kernel, es: seq<Event>)
    requires Valid(env) && Sound(env, k) && |k.levels| <= 1 && (forall e :: e in es ==> !e.Fault?)
    requires Run(env, k, es).Running?
    ensures |Run(env, k, es).k.levels| <= 1
    decreases |es|
  {
    if es != [] {
      StepSound(env, k, es[0]);
      FaultlessStep(env, k, es[0]);
      FaultlessRun(env, Step(env, k, es[0]).k, es[1..]);
    }
  }

  /** In every run without NMIs and exceptions nothing is in service at any entry to idt_common. */
  lemma AcknowledgedInRun(env: Env, k: Kernel, es: seq<Event>)
    requires Valid(env) && Initial(k) && (forall e :: e in es ==> !e.Fault?)
    requires Run(env, k, es).Running? && AtCommon(env, Run(env, k, es).k)
    ensures NothingInService(Run(env, k, es).k.cpu.pics)
  {
    InitialSound(env, k);
    RunSound(env, k, es);
    FaultlessRun(env, k, es);
    AcknowledgedAtCommon(env, Run(env, k, es).k);
  }

  lemma NmiCode(env: Env)
    requires Loaded(env)
    ensures var c := env.code(Stub(NMI_EXCP));
      |c| > 3 && c[0] == PushImm(MINUS_ONE) && c[1] == PushImm(NMI_EXCP) && c[2].Jmp? && c[3] == Pusha
  {
    InMemory(env, Stub(NMI_EXCP));
  }

  lemma ShallowStep(env: Env, k: Kernel, i: Instr, t: State)
    requires k.levels != [] && ExecAt(env, LastLevel(k), i, k.cpu) == Some(t) && (i.PushImm? || i.Jmp?)
    ensures var k' := AfterInstr(k, i, t);
      && k'.cpu.pics == k.cpu.pics && k'.cpu.esp >= k.cpu.esp - 4
      && |k'.levels| == |k.levels| && LastLevel(k') == LastLevel(k).(pos := LastLevel(k).pos + 1)
  {
    var l := LastLevel(k);
    ExecIsOn(env, i, k.cpu, env.at(l.prog, l.pos + 1), env.at(l.prog, l.pos + 2));
  }

  lemma NmiStubRuns(env: Env, k: Kernel)
    requires Valid(env) && Sound(env, k) && k.levels != [] && k.cpu.esp >= env.lo + MARGIN
    requires LastLevel(k).prog == Stub(NMI_EXCP) && LastLevel(k).pos < 3
    ensures GoStep(env, k).Running?
  {
    NmiCode(env);
    assert env.code(Stub(NMI_EXCP))[LastLevel(k).pos] != Ret;
    PathNeverFaults(env, k);
  }

  lemma NmiStubMoves(env: Env, k: Kernel)
    requires Loaded(env) && k.levels != [] && LastLevel(k).prog == Stub(NMI_EXCP) && LastLevel(k).pos < 3
    requires GoStep(env, k).Running?
    ensures var k' := GoStep(env, k).k;
      && k'.cpu.pics == k.cpu.pics && k'.cpu.esp >= k.cpu.esp - 4
      && |k'.levels| == |k.levels| && LastLevel(k') == LastLevel(k).(pos := LastLevel(k).pos + 1)
  {
    NmiCode(env);
    ShallowStep(env, k, env.code(Stub(NMI_EXCP))[LastLevel(k).pos], GoStep(env, k).k.cpu);
  }

  /** One instruction of the NMI stub before idt_common. */
  lemma NmiStubStep(env: Env, k: Kernel)
    requires Valid(env) && Sound(env, k) && k.levels != [] && k.cpu.esp >= env.lo + MARGIN
    requires LastLevel(k).prog == Stub(NMI_EXCP) && LastLevel(k).pos < 3
    ensures Step(env, k, Go).Running?
    ensures var k' := Step(env, k, Go).k;
      && Sound(env, k') && k'.cpu.pics == k.cpu.pics && k'.cpu.esp >= k.cpu.esp - 4
      && |k'.levels| == |k.levels| && LastLevel(k') == LastLevel(k).(pos := LastLevel(k).pos + 1)
  {
    NmiStubRuns(env, k);
    StepSound(env, k, Go);
    NmiStubMoves(env, k);
  }

  lemma NmiReachesCommon(env: Env, k: Kernel)
    requires Valid(env) && Sound(env, k) && k.levels != [] && k.cpu.esp >= env.lo + MARGIN + 12
    requires LastLevel(k).prog == Stub(NMI_EXCP) && LastLevel(k).pos == 0
    ensures var o := Run(env, k, [Go, Go, Go]);
      && o.Running? && o.k.levels != [] && LastLevel(o.k).prog == Stub(NMI_EXCP)
      && LastLevel(o.k).pos == 3 && o.k.cpu.pics == k.cpu.pics
  {
    NmiStubStep(env, k);
    var k1 := Step(env, k, Go).k;
    NmiStubStep(env, k1);
    var k2 := Step(env, k1, Go).k;
    NmiStubStep(env, k2);
    RunTwo(env, k, Go, Go);
    RunSplit(env, k, [Go, Go], [Go]);
    RunOne(env, k2, Go);
    assert [Go, Go] + [Go] == [Go, Go, Go];
  }

  lemma RunTwo(env: Env, k: Kernel, e1: Event, e2: Event)
    requires |env.idt| == IDT_NR_DESC && Step(env, k, e1).Running?
    ensures Run(env, k, [e1, e2]) == Step(env, Step(env, k, e1).k, e2)
  {
    RunOne(env, k, e1);
    RunSplit(env, k, [e1], [e2]);
    RunOne(env, Step(env, k, e1).k, e2);
    assert [e1] + [e2] == [e1, e2];
  }

  lemma RequestAccepted(env: Env, k: Kernel, n: nat) returns (k1: Kernel)
    requires Valid(env) && Initial(k) && IfOn(k.cpu.eflags) && n < 8 && n != 2
    requires env.lo + 80 <= FrameTop(env, k.cpu) <= env.hi
    ensures Step(env, k, External(Master(n))) == Running(k1)
    ensures Sound(env, k1) && env.lo + 60 <= FrameTop(env, k1.cpu) <= env.hi && Cpl(k1.cpu) == 0
    ensures k1.cpu.pics.master.isr == {n}
  {
    InitialSound(env, k);
    EntryOfGate(env, 32 + n);
    InterruptSound(env, k, External(Master(n)));
    k1 := Step(env, k, External(Master(n))).k;
    LastInv(env, k1);
    assert LastLevel(k1).code == [] && |FrameOf(LastLevel(k1))| <= 5;
    assert {} + {n} == {n};
  }

  lemma NmiAccepted(env: Env, k1: Kernel) returns (k2: Kernel)
    requires Valid(env) && Sound(env, k1) && env.lo + 60 <= FrameTop(env, k1.cpu) <= env.hi && Cpl(k1.cpu) == 0
    ensures Step(env, k1, Fault(NMI_EXCP, [])) == Running(k2)
    ensures Sound(env, k2) && k2.levels != [] && LastLevel(k2).prog == Stub(NMI_EXCP) && LastLevel(k2).pos == 0
    ensures k2.cpu.esp >= env.lo + MARGIN + 12 && k2.cpu.pics == k1.cpu.pics
  {
    FaultAccepted(env, k1, NMI_EXCP);
    FaultSound(env, k1, NMI_EXCP, []);
    k2 := Step(env, k1, Fault(NMI_EXCP, [])).k;
  }

  /** The exception is real: a request on line n, then an NMI before the stub has acknowledged it,
      and idt_common is entered with line n still in service. */
  lemma NmiBeforeAcknowledge(env: Env, k: Kernel, n: nat)
    requires Valid(env) && Initial(k) && IfOn(k.cpu.eflags) && n < 8 && n != 2
    requires env.lo + 80 <= FrameTop(env, k.cpu) <= env.hi
    ensures var o := Run(env, k, [External(Master(n)), Fault(2, [])] + [Go, Go, Go]);
      && o.Running? && o.k.levels != [] && LastLevel(o.k).prog == Stub(2)
      && LastLevel(o.k).pos < |env.code(Stub(2))| && env.code(Stub(2))[LastLevel(o.k).pos] == Pusha
      && o.k.cpu.pics.master.isr == {n}
  {
    var e1, e2 := External(Master(n)), Fault(NMI_EXCP, []);
    var k1 := RequestAccepted(env, k, n);
    var k2 := NmiAccepted(env, k1);
    NmiReachesCommon(env, k2);
    NmiCode(env);
    RunTwo(env, k, e1, e2);
    RunSplit(env, k, [e1, e2], [Go, Go, Go]);
  }
}
