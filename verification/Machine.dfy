/** The interrupt path as a machine: hardware delivery, the assembly of the 256 stubs, the
    end-of-interrupt code, idt_common, resume_from_intr and the system call routine, executed one
    instruction at a time over flat memory. */
module Machine {
  import opened Memory
  import opened Wrappers
  import opened Pic
  import opened Descriptors

  datatype Regs = Regs(eax: Word, ecx: Word, edx: Word, ebx: Word, ebp: Word, esi: Word, edi: Word)

  datatype State = State(r: Regs, esp: Word, eip: Word, cs: U16, ss: U16, eflags: Word, mem: Space, pics: Pair)

  /** Current privilege level. */
  function Cpl(s: State): nat { s.cs % 4 }

  predicate IfOn(f: Word) { Test(f, 9) }

  /** Delivery through an interrupt gate clears VM, RF, NT, TF and IF (SDM volume 3A, 6.12.1). */
  function GateFlags(f: Word): (f': Word)
    ensures !IfOn(f')
  {
    ClearAll(f, [17, 16, 14, 8, 9])
  }

  /** Delivery clears TF (8), IF (9), NT (14), RF (16) and VM (17) and no other flag. */
  lemma GateFlagsExactly(f: Word, b: nat)
    ensures Test(GateFlags(f), b) <==> b !in {8, 9, 14, 16, 17} && Test(f, b)
  {
    ClearAllExactly(f, [17, 16, 14, 8, 9], b);
  }

  // ---- Code ---------------------------------------------------------------------------------------

  datatype Instr =
    | PushImm(w: Word) | PushEax | PushEbp | Pushf | PopEax
    | MovAl(b: Byte) | OutAl(port: nat) | Jmp(to: Label)
    | Pusha | Popa | MovEaxEsp | MovEbpEsp | Leave | PopEbp
    | AddEsp(n: nat) | Call | Ret | Iret

  datatype Label = IdtCommon | AckPic1 | AckPic2 | EoiPic1

  const MINUS_ONE: Word := 0xffff_ffff

  /** Exceptions for which the CPU itself pushes an error code. */
  predicate HasErrorCode(v: nat) { v == 8 || 10 <= v <= 14 || v == 17 }

  predicate Reserved(v: nat) { 20 <= v < 32 }

  /** The 16-byte stub of vector v. */
  function StubCode(v: nat): seq<Instr>
    requires v < 256
  {
    if HasErrorCode(v) then [PushImm(v), Jmp(IdtCommon)]
    else if Reserved(v) then [Iret]
    else if 32 <= v < 40 then [PushImm(MINUS_ONE), PushImm(v), Jmp(AckPic1)]
    else if 40 <= v < 48 then [PushImm(MINUS_ONE), PushImm(v), Jmp(AckPic2)]
    else [PushImm(MINUS_ONE), PushImm(v), Jmp(IdtCommon)]
  }

  /** The code from a label on; Ret stands for the handler called just before it. */
  function CodeFrom(l: Label): seq<Instr>
    decreases match l case AckPic2 => 3 case AckPic1 => 3 case EoiPic1 => 2 case IdtCommon => 1
  {
    match l
    case AckPic2 => [PushEax, MovAl(EOI), OutAl(PIC2), Jmp(EoiPic1)] + CodeFrom(EoiPic1)
    case AckPic1 => [PushEax, MovAl(EOI)] + CodeFrom(EoiPic1)
    case EoiPic1 => [OutAl(PIC1), PopEax] + CodeFrom(IdtCommon)
    case IdtCommon => [Pusha, MovEaxEsp, Call, Ret] + [Popa, AddEsp(8), Iret]
  }

  /** What a gate leads to: a stub, or the system call routine (with its C prologue). */
  datatype Prog = Stub(v: nat) | Syscall

  predicate IsProg(p: Prog) { p.Stub? ==> p.v < 256 }

  function Code(p: Prog): seq<Instr>
    requires IsProg(p)
  {
    match p
    case Syscall => [PushEbp, MovEbpEsp, Leave, Pusha, MovEaxEsp, Call, Ret, Popa, Iret]
    case Stub(v) =>
      var stub := StubCode(v);
      if stub[|stub| - 1].Jmp? then stub + CodeFrom(stub[|stub| - 1].to) else stub
  }

  // ---- Surroundings ---------------------------------------------------------------------------------

  /** Everything that stays fixed during a run: the kernel stack [lo, hi), the addresses outside it
      that handlers may write, the IDT, the instructions of each program and where they lie, the ring 0
      stack of the TSS, whether gate 48 is the system call gate, and the status flags an addition leaves. */
  datatype Env = Env(lo: Word, hi: int, own: set<int>, idt: seq<Gate>, trampoline: Word, syscallIsr: Word,
                     code: Prog -> seq<Instr>, at: (Prog, nat) -> Word, esp0: Word, ss0: U16, syscall: bool,
                     addFlags: (Word, Word) -> Word)

  predicate InStack(env: Env, a: int) { env.lo <= a < env.hi }

  /** The program that starts at a code address. */
  function Entry(env: Env, a: Word): (p: Prog)
    ensures IsProg(p)
  {
    if a == env.syscallIsr then Syscall
    else if env.trampoline <= a < env.trampoline + IDT_NR_DESC * IDT_ISR_ALGN then
      Stub((a - env.trampoline) / IDT_ISR_ALGN)
    else Stub(0)
  }

  /** Registers saved by pusha, by position in gpr_ctx_t. */
  function GprWord(r: Regs, esp: Word, k: int): Word {
    match k
    case 0 => r.edi
    case 1 => r.esi
    case 2 => r.ebp
    case 3 => esp
    case 4 => r.ebx
    case 5 => r.edx
    case 6 => r.ecx
    case _ => r.eax
  }

  /** The same, lowest address first. */
  function GprWords(r: Regs, esp: Word): seq<Word> { seq(8, k => GprWord(r, esp, k)) }

  /** The programs are the ones of the source. */
  ghost predicate Loaded(env: Env) {
    forall p {:trigger Code(p)} :: IsProg(p) ==> env.code(p) == Code(p)
  }

  /** What the kernel's initialisation establishes (intr_init, update_idt, start_r3) and the linker
      guarantees: gates and code addresses agree, and the stack region lies apart from handler data. */
  ghost predicate Valid(env: Env) {
    && |env.idt| == IDT_NR_DESC
    && env.trampoline + IDT_NR_DESC * IDT_ISR_ALGN <= SPACE
    && (forall v :: 0 <= v < IDT_NR_DESC ==>
          if v == 48 && env.syscall then GateTo(env.idt[v], env.syscallIsr, 3)
          else GateTo(env.idt[v], env.trampoline + IDT_ISR_ALGN * v, 0))
    && !(env.trampoline <= env.syscallIsr < env.trampoline + IDT_NR_DESC * IDT_ISR_ALGN)
    && Loaded(env)
    && env.at(Syscall, 0) == env.syscallIsr
    && (forall v :: 0 <= v < IDT_NR_DESC ==> env.at(Stub(v), 0) == env.trampoline + IDT_ISR_ALGN * v)
    && env.lo <= env.esp0 <= env.hi <= SPACE && env.ss0 % 4 == 0
    && (forall a :: a in env.own ==> !InStack(env, a))
    && (forall f: Word, x: Word :: IfOn(env.addFlags(f, x)) == IfOn(f))
  }

  // ---- Execution ------------------------------------------------------------------------------------

  predicate Room(env: Env, top: Word, n: nat) { env.lo <= top - 4 * n && top <= env.hi <= SPACE }

  /** Pushes ws so that ws[0] ends on top; None when the stack region is exhausted. */
  function Push(env: Env, s: State, ws: seq<Word>): Option<State> {
    if Room(env, s.esp, |ws|) then
      var esp := s.esp - 4 * |ws|;
      Some(s.(esp := esp, mem := Put(s.mem, esp, ws)))
    else None
  }

  /** Whether n words can be read from the top of the stack. */
  predicate CanPop(env: Env, s: State, n: nat) { env.lo <= s.esp && s.esp + 4 * n <= env.hi <= SPACE }

  function Top(s: State, i: nat): Word
    requires s.esp + 4 * i + 4 <= SPACE
  {
    Rd32(s.mem, s.esp + 4 * i)
  }

  function Advance(s: State, n: nat): State
    requires s.esp + n <= SPACE
  {
    s.(esp := Wrap(s.esp + n))
  }

  /** IRET from ring 0: three words, and two more when the frame returns to an outer ring. */
  function IretFrom(env: Env, s: State): Option<State> {
    if !CanPop(env, s, 3) then None
    else
      var cs := Top(s, 1) % 0x1_0000;
      if cs % 4 < Cpl(s) then None
      else if cs % 4 == Cpl(s) then
        Some(Advance(s, 12).(eip := Top(s, 0), cs := cs, eflags := Top(s, 2)))
      else if !CanPop(env, s, 5) then None
      else Some(s.(eip := Top(s, 0), cs := cs, eflags := Top(s, 2), esp := Top(s, 3), ss := Top(s, 4) % 0x1_0000))
  }

  function PopEaxFrom(env: Env, s: State): Option<State> {
    if CanPop(env, s, 1) then Some(Advance(s, 4).(r := s.r.(eax := Top(s, 0)))) else None
  }

  /** popa skips the saved ESP. */
  function PopaFrom(env: Env, s: State): Option<State> {
    if CanPop(env, s, 8) then
      Some(Advance(s, 32).(r := Regs(eax := Top(s, 7), ecx := Top(s, 6), edx := Top(s, 5), ebx := Top(s, 4),
                                     ebp := Top(s, 2), esi := Top(s, 1), edi := Top(s, 0))))
    else None
  }

  function PopEbpFrom(env: Env, s: State): Option<State> {
    if CanPop(env, s, 1) then Some(Advance(s, 4).(r := s.r.(ebp := Top(s, 0)))) else None
  }

  function RetFrom(env: Env, s: State): Option<State> {
    if CanPop(env, s, 1) then Some(Advance(s, 4).(eip := Top(s, 0))) else None
  }

  function AddEspFrom(env: Env, s: State, n: nat): State {
    var esp := Wrap(s.esp + n);
    s.(esp := esp, eflags := env.addFlags(s.eflags, esp))
  }

  /** One instruction; next and after are the addresses of the two instructions that follow it. EIP moves
      on first. A call goes to next and returns to after. */
  function Exec(env: Env, i: Instr, s: State, next: Word, after: Word): Option<State>
    decreases if i.Leave? then 1 else 0, 1
  {
    ExecOn(env, i, s.(eip := next), after)
  }

  /** What the instruction does, with EIP already past it. */
  function ExecOn(env: Env, i: Instr, u: State, after: Word): Option<State>
    decreases if i.Leave? then 1 else 0, 0
  {
    match i
    case PushImm(w) => Push(env, u, [w])
    case PushEax => Push(env, u, [u.r.eax])
    case PushEbp => Push(env, u, [u.r.ebp])
    case Pushf => Push(env, u, [u.eflags])
    case Pusha => Push(env, u, GprWords(u.r, u.esp))
    case Call => Push(env, u, [after])
    case PopEax => PopEaxFrom(env, u)
    case PopEbp => PopEbpFrom(env, u)
    case Popa => PopaFrom(env, u)
    case Leave => Exec(env, PopEbp, u.(esp := u.r.ebp), u.eip, after)
    case MovAl(b) => Some(u.(r := u.r.(eax := u.r.eax - u.r.eax % 0x100 + b)))
    case OutAl(port) => Some(u.(pics := PortWrite(u.pics, port, u.r.eax % 0x100)))
    case Jmp(_) => Some(u)
    case MovEaxEsp => Some(u.(r := u.r.(eax := u.esp)))
    case MovEbpEsp => Some(u.(r := u.r.(ebp := u.esp)))
    case AddEsp(n) => Some(AddEspFrom(env, u, n))
    case Ret => RetFrom(env, u)
    case Iret => IretFrom(env, u)
  }

  lemma ExecIsOn(env: Env, i: Instr, s: State, next: Word, after: Word)
    ensures Exec(env, i, s, next, after) == ExecOn(env, i, s.(eip := next), after)
  {
  }

  lemma LeaveIs(env: Env, s: State, next: Word, after: Word)
    ensures Exec(env, Leave, s, next, after) == PopEbpFrom(env, s.(esp := s.r.ebp, eip := next))
  {
    var u := s.(eip := next);
    ExecIsOn(env, Leave, s, next, after);
    ExecIsOn(env, PopEbp, u.(esp := u.r.ebp), next, after);
    assert u.(esp := u.r.ebp).(eip := next) == u.(esp := u.r.ebp);
    assert ExecOn(env, Leave, u, after) == Exec(env, PopEbp, u.(esp := u.r.ebp), next, after);
    assert ExecOn(env, PopEbp, u.(esp := u.r.ebp), after) == PopEbpFrom(env, u.(esp := u.r.ebp));
  }

  lemma RetIs(env: Env, s: State, next: Word, after: Word)
    ensures Exec(env, Ret, s, next, after) == RetFrom(env, s)
  {
    ExecIsOn(env, Ret, s, next, after);
    assert ExecOn(env, Ret, s.(eip := next), after) == RetFrom(env, s.(eip := next));
  }

  lemma IretIs(env: Env, s: State, next: Word, after: Word)
    ensures Exec(env, Iret, s, next, after) == IretFrom(env, s)
  {
    ExecIsOn(env, Iret, s, next, after);
    assert ExecOn(env, Iret, s.(eip := next), after) == IretFrom(env, s.(eip := next));
  }

  // ---- The kernel as a transition system --------------------------------------------------------------

  /** One interruption in progress. `saved` is the interrupted state and serves the statements only;
      `base` is ESP on entry to the C handler. */
  datatype Level = Level(saved: State, code: seq<Word>, vector: nat, irq: Option<Irq>, prog: Prog, pos: nat, base: int)

  datatype Kernel = Kernel(cpu: State, levels: seq<Level>)

  /** Why a run cannot go on: the stack region is exhausted, the kernel panicked, the event was not
      possible in that state, or control left the known code. */
  datatype Reason = StackLimit | Panic | NotEnabled | Wild

  datatype Outcome = Running(k: Kernel) | Stopped(why: Reason)

  /** Stack from which a frame is pushed: the TSS's when coming from ring 3. */
  function FrameTop(env: Env, s: State): Word { if Cpl(s) == 3 then env.esp0 else s.esp }

  /** What the CPU pushes, lowest address first (SDM volume 3A, 6.12.1 and 6.13). */
  function Frame(s: State, code: seq<Word>): seq<Word> {
    code + [s.eip, s.cs, s.eflags] + (if Cpl(s) == 3 then [s.esp, s.ss] else [])
  }

  function Deliver(env: Env, k: Kernel, s: State, vector: nat, code: seq<Word>, irq: Option<Irq>): Outcome
    requires vector < |env.idt|
  {
    var gate := env.idt[vector];
    var ws := Frame(s, code);
    var top := FrameTop(env, s);
    if gate.p == 0 || gate.kind != INTR_GATE_32 then Stopped(Wild)
    else if !Room(env, top, |ws|) then Stopped(StackLimit)
    else Running(Kernel(Enter(env, s, gate, ws), k.levels + [Level(s, code, vector, irq, Entry(env, Offset(gate)), 0, 0)]))
  }

  /** The processor on entry through a gate, with the words ws pushed on the right stack. */
  function Enter(env: Env, s: State, gate: Gate, ws: seq<Word>): State
    requires Room(env, FrameTop(env, s), |ws|)
  {
    var esp := FrameTop(env, s) - 4 * |ws|;
    s.(esp := esp, ss := if Cpl(s) == 3 then env.ss0 else s.ss, cs := gate.selector,
       eflags := GateFlags(s.eflags), eip := Offset(gate), mem := Put(s.mem, esp, ws))
  }

  /** excp_hdlr and intr_hdlr on the saved vector byte: everything but the NMI below 32 panics. */
  const NR_EXCP := 32
  const NMI_EXCP := 2

  predicate HandlerReturns(p: Prog, m: Space, ctx: int) {
    p.Syscall? || (0 <= ctx <= SPACE - 36 && (var nr := SavedVector(m, ctx); nr >= NR_EXCP || nr == NMI_EXCP))
  }

  /** ctx->nr.blow */
  function SavedVector(m: Space, ctx: int): Byte
    requires 0 <= ctx <= SPACE - 36
  {
    Rd32(m, ctx + 32) % 0x100
  }

  datatype Event =
    | Own(to: State)                          // the interrupted program or the running C handler moves on
    | Go                                      // the next instruction of the interrupt path
    | Fault(vector: nat, code: seq<Word>)     // a CPU exception or an NMI
    | External(irq: Irq)                      // an interrupt request through the controllers
    | SoftInt(vector: nat, next: Word)        // INT n, next being the address after it

  /** What code outside the path may do: never change ring; the handler keeps below `base` on the
      stack, writes only its own memory besides, and leaves IF and the controllers alone. */
  predicate OwnMove(env: Env, k: Kernel, to: State) {
    var s := k.cpu;
    && to.pics == s.pics
    && (if k.levels == [] then to.cs % 4 == s.cs % 4 && to.ss % 4 == s.ss % 4
        else
          var l := k.levels[|k.levels| - 1];
          && IsProg(l.prog) && l.pos < |env.code(l.prog)| && env.code(l.prog)[l.pos] == Ret
          && to.cs == s.cs && to.ss == s.ss && IfOn(to.eflags) == IfOn(s.eflags)
          && env.lo <= to.esp <= l.base
          && forall a :: 0 <= a < SPACE && (if InStack(env, a) then l.base <= a else a !in env.own) ==> to.mem[a] == s.mem[a])
  }

  /** The topmost interruption executes instruction i, with result x. */
  function GoInstr(env: Env, k: Kernel, i: Instr, x: Option<State>): Outcome
    requires k.levels != []
  {
    var l := k.levels[|k.levels| - 1];
    if i == Ret && k.cpu.esp != l.base then Stopped(NotEnabled)
    else if i == Ret && !HandlerReturns(l.prog, k.cpu.mem, l.base + 4) then Stopped(Panic)
    else if i != Ret && k.cpu.eip != env.at(l.prog, l.pos) then Stopped(Wild)
    else
      match x
      case None => Stopped(StackLimit)
      case Some(t) => Running(AfterInstr(k, i, t))
  }

  /** The topmost level one position further, or gone. */
  function AfterInstr(k: Kernel, i: Instr, t: State): Kernel
    requires k.levels != []
  {
    var n := |k.levels| - 1;
    Kernel(t, if i == Iret then k.levels[..n] else k.levels[..n] + [NextLevel(k.levels[n], i, t)])
  }

  /** Instruction i at the position of level l. */
  function ExecAt(env: Env, l: Level, i: Instr, s: State): Option<State> {
    Exec(env, i, s, env.at(l.prog, l.pos + 1), env.at(l.prog, l.pos + 2))
  }

  function NextLevel(l: Level, i: Instr, s: State): Level {
    l.(pos := l.pos + 1, base := if i == Call then s.esp else l.base)
  }

  function GoStep(env: Env, k: Kernel): Outcome {
    if k.levels == [] then Stopped(NotEnabled)
    else
      var l := k.levels[|k.levels| - 1];
      if IsProg(l.prog) && l.pos < |env.code(l.prog)| then
        var i := env.code(l.prog)[l.pos];
        GoInstr(env, k, i, ExecAt(env, l, i, k.cpu))
      else Stopped(Wild)
  }

  function Step(env: Env, k: Kernel, e: Event): Outcome
    requires |env.idt| == IDT_NR_DESC
  {
    match e
    case Own(to) => if OwnMove(env, k, to) then Running(k.(cpu := to)) else Stopped(NotEnabled)
    case Go => GoStep(env, k)
    case Fault(v, code) =>
      if v < 20 && |code| == (if HasErrorCode(v) then 1 else 0) then Deliver(env, k, k.cpu, v, code, None)
      else Stopped(NotEnabled)
    case External(q) =>
      if !IfOn(k.cpu.eflags) || !q.Valid() then Stopped(NotEnabled)
      else
        var (pics, v) := Acknowledge(k.cpu.pics, q);
        if v < 256 then Deliver(env, k, k.cpu.(pics := pics), v, [], Some(q)) else Stopped(Wild)
    case SoftInt(v, next) =>
      if k.levels != [] || v >= 256 then Stopped(NotEnabled)
      else if env.idt[v].dpl < Cpl(k.cpu) then Deliver(env, k, k.cpu, 13, [8 * v + 2], None)
      else Deliver(env, k, k.cpu.(eip := next), v, [], None)
  }

  /** One event after the other, whatever a step is. */
  function Follow(step: (Kernel, Event) -> Outcome, k: Kernel, es: seq<Event>): Outcome
    decreases |es|
  {
    if es == [] then Running(k)
    else
      match step(k, es[0])
      case Running(k') => Follow(step, k', es[1..])
      case Stopped(why) => Stopped(why)
  }

  function StepOf(env: Env): (Kernel, Event) -> Outcome
    requires |env.idt| == IDT_NR_DESC
  {
    (k: Kernel, e: Event) => Step(env, k, e)
  }

  function Run(env: Env, k: Kernel, es: seq<Event>): Outcome
    requires |env.idt| == IDT_NR_DESC
  {
    Follow(StepOf(env), k, es)
  }

  lemma {:induction false} FollowSplit(step: (Kernel, Event) -> Outcome, k: Kernel, es: seq<Event>, fs: seq<Event>)
    requires Follow(step, k, es).Running?
    ensures Follow(step, k, es + fs) == Follow(step, Follow(step, k, es).k, fs)
    decreases |es|
  {
    if es == [] {
      assert es + fs == fs;
    } else {
      assert (es + fs)[1..] == es[1..] + fs;
      FollowSplit(step, step(k, es[0]).k, es[1..], fs);
    }
  }

  lemma FollowOne(step: (Kernel, Event) -> Outcome, k: Kernel, e: Event)
    ensures Follow(step, k, [e]) == step(k, e)
  {
    assert [e][1..] == [];
    if step(k, e).Running? { assert Follow(step, step(k, e).k, []) == step(k, e); }
  }

  /** A run may be taken apart anywhere. */
  lemma RunSplit(env: Env, k: Kernel, es: seq<Event>, fs: seq<Event>)
    requires |env.idt| == IDT_NR_DESC && Run(env, k, es).Running?
    ensures Run(env, k, es + fs) == Run(env, Run(env, k, es).k, fs)
  {
    FollowSplit(StepOf(env), k, es, fs);
  }

  lemma RunOne(env: Env, k: Kernel, e: Event)
    requires |env.idt| == IDT_NR_DESC
    ensures Run(env, k, [e]) == Step(env, k, e)
  {
    FollowOne(StepOf(env), k, e);
  }
}
