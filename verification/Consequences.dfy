/** Consequences of the kernel invariant: what handlers see, and who may enter ring 0. */
module Consequences {
  import opened Memory
  import opened Wrappers
  import opened Pic
  import opened Descriptors
  import opened Machine
  import opened Stack
  import opened Paths
  import opened Levels
  import opened Steps
  import opened Runs
  import opened Guarantees

  // ---- What the C code sees -----------------------------------------------------------------------------

  /** Offsets in int_ctx_t. */
  const NR := 32
  const ERR := 36
  const EIP := 40

  /** The gpr part of int_ctx_t at address c shows the registers r; its esp is the address after it. */
  predicate ShowsGpr(m: Space, c: int, r: Regs)
    requires 0 <= c <= SPACE - 32
  {
    && Rd32(m, c) == r.edi && Rd32(m, c + 4) == r.esi && Rd32(m, c + 8) == r.ebp && Rd32(m, c + 12) == c + 32
    && Rd32(m, c + 16) == r.ebx && Rd32(m, c + 20) == r.edx && Rd32(m, c + 24) == r.ecx && Rd32(m, c + 28) == r.eax
  }

  /** The CPU's part: EIP, CS, EFLAGS, and ESP and SS on a ring change. */
  predicate ShowsFrame(m: Space, f: int, s: State)
    requires 0 <= f <= SPACE - (if Cpl(s) == 3 then 20 else 12)
  {
    && Rd32(m, f) == s.eip && Rd32(m, f + 4) == s.cs && Rd32(m, f + 8) == s.eflags
    && (Cpl(s) == 3 ==> Rd32(m, f + 12) == s.esp && Rd32(m, f + 16) == s.ss)
  }

  lemma GprShown(m: Space, c: int, r: Regs, esp: Word, rest: seq<Word>)
    requires 0 <= c && c + 32 + 4 * |rest| <= SPACE && Holds(m, c, GprWords(r, esp) + rest) && esp == c + 32
    ensures ShowsGpr(m, c, r)
  {
    var ws := GprWords(r, esp) + rest;
    HoldsAt(m, c, ws, 0); HoldsAt(m, c, ws, 1); HoldsAt(m, c, ws, 2); HoldsAt(m, c, ws, 3);
    HoldsAt(m, c, ws, 4); HoldsAt(m, c, ws, 5); HoldsAt(m, c, ws, 6); HoldsAt(m, c, ws, 7);
  }

  lemma FrameShown(m: Space, f: int, s: State)
    requires 0 <= f && f + 4 * |Frame(s, [])| <= SPACE && Holds(m, f, Frame(s, []))
    ensures ShowsFrame(m, f, s)
  {
    var ws := Frame(s, []);
    HoldsAt(m, f, ws, 0); HoldsAt(m, f, ws, 1); HoldsAt(m, f, ws, 2);
    if Cpl(s) == 3 { HoldsAt(m, f, ws, 3); HoldsAt(m, f, ws, 4); }
  }

  /** For its whole duration the handler has the context in front of it. */
  lemma HandlerHolds(env: Env, k: Kernel)
    requires Sound(env, k) && Handling(k)
    ensures var l := LastLevel(k);
      && l.base + 4 == ContextAt(env, l) && env.lo <= ContextAt(env, l) && LevelTop(env, l) <= env.hi <= SPACE
      && ContextAt(env, l) + 4 * |ContextOf(env, l)| == LevelTop(env, l)
      && Holds(k.cpu.mem, ContextAt(env, l), ContextOf(env, l))
  {
    LastInv(env, k);
    HandlerContext(env, LastLevel(k), k.cpu);
    ContextFits(env, LastLevel(k));
  }

  lemma ContextShown(m: Space, c: int, r: Regs, esp: Word, nr: Word, err: Word, s: State)
    requires 0 <= c && c + EIP + 4 * |Frame(s, [])| <= SPACE && esp == c + 32
    requires Holds(m, c, GprWords(r, esp) + ([nr, err] + Frame(s, [])))
    ensures ShowsGpr(m, c, r) && Rd32(m, c + NR) == nr && Rd32(m, c + ERR) == err && ShowsFrame(m, c + EIP, s)
  {
    var ws := GprWords(r, esp) + ([nr, err] + Frame(s, []));
    GprShown(m, c, r, esp, [nr, err] + Frame(s, []));
    HoldsAt(m, c, ws, 8);
    HoldsAt(m, c, ws, 9);
    HoldsDrop(m, c, ws, 10);
    assert ws[10..] == Frame(s, []);
    FrameShown(m, c + EIP, s);
  }

  function ErrorWord(l: Level): Word
    requires |l.code| == if HasErrorCode(l.vector) then 1 else 0
  {
    if HasErrorCode(l.vector) then l.code[0] else MINUS_ONE
  }

  lemma ContextWords(env: Env, l: Level)
    requires Proper(env, l) && l.prog.Stub? && !BareIret(l)
    requires |l.code| == if HasErrorCode(l.vector) then 1 else 0
    ensures Header(l.prog) + FrameOf(l) == [l.vector, ErrorWord(l)] + Frame(l.saved, [])
  {
    if HasErrorCode(l.vector) { assert l.code == [l.code[0]]; }
  }

  /** intr_hdlr reads, for its whole duration, the interrupted registers, its vector, the CPU's error
      code or -1, and the CPU's frame, each at the offset of its int_ctx_t field. */
  lemma HandlerSees(env: Env, k: Kernel)
    requires Sound(env, k) && Handling(k) && LastLevel(k).prog.Stub?
    requires var l := LastLevel(k);
      |l.code| == if l.vector in {8, 10, 11, 12, 13, 14, 17} then 1 else 0
    ensures var l := LastLevel(k);
      var c := l.base + 4;
      && env.lo <= c && c + 40 + (if l.saved.cs % 4 == 3 then 20 else 12) == LevelTop(env, l) <= env.hi <= SPACE
      && ShowsGpr(k.cpu.mem, c, l.saved.r)
      && Rd32(k.cpu.mem, c + 32) == l.vector
      && Rd32(k.cpu.mem, c + 36) == (if l.vector in {8, 10, 11, 12, 13, 14, 17} then l.code[0] else 0xffff_ffff)
      && ShowsFrame(k.cpu.mem, c + 40, l.saved)
  {
    LastProper(env, k);
    HandlerHolds(env, k);
    LevelShows(env, LastLevel(k), k.cpu.mem);
  }

  lemma LevelShows(env: Env, l: Level, m: Space)
    requires Proper(env, l) && l.prog.Stub? && !BareIret(l) && LevelTop(env, l) <= SPACE && 0 <= ContextAt(env, l)
    requires |l.code| == if HasErrorCode(l.vector) then 1 else 0
    requires Holds(m, ContextAt(env, l), ContextOf(env, l))
    ensures var c := ContextAt(env, l);
      && c + EIP + 4 * |Frame(l.saved, [])| == LevelTop(env, l)
      && ShowsGpr(m, c, l.saved.r) && Rd32(m, c + NR) == l.vector && Rd32(m, c + ERR) == ErrorWord(l)
      && ShowsFrame(m, c + EIP, l.saved)
  {
    ContextWords(env, l);
    var f := [l.vector, ErrorWord(l)] + Frame(l.saved, []);
    var esp := Below(LevelTop(env, l), |f|);
    assert ContextOf(env, l) == GprWords(l.saved.r, esp) + f;
    assert |ContextOf(env, l)| == 8 + |f| == 10 + |Frame(l.saved, [])|;
    ContextShown(m, ContextAt(env, l), l.saved.r, esp, l.vector, ErrorWord(l), l.saved);
  }

  /** syscall_handler finds the caller's registers at the same gpr offsets, though no vector and no
      error code precede the frame. */
  lemma SyscallHandlerSees(env: Env, k: Kernel)
    requires Sound(env, k) && Handling(k) && LastLevel(k).prog.Syscall?
    ensures var l := LastLevel(k);
      var c := l.base + 4;
      && env.lo <= c && c + 32 + 4 * |Frame(l.saved, [])| == LevelTop(env, l) <= env.hi <= SPACE
      && l.vector == 48 && ShowsGpr(k.cpu.mem, c, l.saved.r) && ShowsFrame(k.cpu.mem, c + 32, l.saved)
  {
    var l := LastLevel(k);
    LastProper(env, k);
    HandlerHolds(env, k);
    ContextFits(env, l);
    var c, ws, m := ContextAt(env, l), ContextOf(env, l), k.cpu.mem;
    GprShown(m, c, l.saved.r, Below(LevelTop(env, l), |Header(l.prog) + FrameOf(l)|), Header(l.prog) + FrameOf(l));
    HoldsDrop(m, c, ws, 8);
    assert ws[8..] == Frame(l.saved, []);
    FrameShown(m, c + 32, l.saved);
  }

  /** When the handler is called, EAX (its regparm argument) is ESP, the address of the context. */
  lemma CallPassesContext(env: Env, k: Kernel)
    requires Valid(env) && Sound(env, k) && k.levels != []
    requires var l := LastLevel(k);
      IsProg(l.prog) && l.pos < |env.code(l.prog)| && env.code(l.prog)[l.pos] == Call
    ensures var l := LastLevel(k);
      && k.cpu.r == l.saved.r.(eax := k.cpu.esp)
      && k.cpu.esp + 4 * |ContextOf(env, l)| == LevelTop(env, l) <= SPACE
      && Holds(k.cpu.mem, k.cpu.esp, ContextOf(env, l))
  {
    var l := LastLevel(k);
    LastInv(env, k);
    Locate(env, l);
    CallPosition(env, l, Expected(env, l), Expected(env, l.(pos := l.pos + 1)));
    CalledWith(env, l, k.cpu, Expected(env, l));
    ContextFits(env, l);
  }

  lemma CallPosition(env: Env, l: Level, e: Shadow, e': Shadow)
    requires IsProg(l.prog) && l.pos < CodeLength(l.prog) && Position(env, l, Call, e, e')
    ensures !BareIret(l) && l.pos + 1 == RetIdx(l.prog)
    ensures e == Shadow(l.saved.r.(eax := Below(LevelTop(env, l), |ContextOf(env, l)|)), ContextOf(env, l))
  {
  }

  lemma CalledWith(env: Env, l: Level, s: State, e: Shadow)
    requires IsProg(l.prog) && Match(env, s, e, LevelTop(env, l))
    requires e == Shadow(l.saved.r.(eax := Below(LevelTop(env, l), |ContextOf(env, l)|)), ContextOf(env, l))
    ensures s.r == l.saved.r.(eax := s.esp) && s.esp == ContextAt(env, l) && Holds(s.mem, s.esp, ContextOf(env, l))
  {
  }

  /** exception_names has 20 entries. */
  const EXCEPTION_NAMES := 20

  lemma ProperVector(env: Env, l: Level)
    requires Proper(env, l) && l.prog.Stub? && !BareIret(l)
    ensures l.vector < EXCEPTION_NAMES || l.vector >= NR_EXCP
  {
  }

  /** Which vectors lead to the handlers at all: 20..31 are a bare IRET. */
  lemma HandlerVector(env: Env, k: Kernel)
    requires Sound(env, k) && Handling(k) && LastLevel(k).prog.Stub?
    ensures var l := LastLevel(k);
      && 0 <= l.base + 4 <= SPACE - 36 && SavedVector(k.cpu.mem, l.base + 4) == l.vector < 256
      && (l.vector < EXCEPTION_NAMES || l.vector >= NR_EXCP)
      && (HandlerReturns(l.prog, k.cpu.mem, l.base + 4) <==> Returning(l))
  {
    var l := LastLevel(k);
    LastProper(env, k);
    HandlerHolds(env, k);
    ProperVector(env, l);
    VectorSlot(env, l, k.cpu.mem);
  }

  /** excp_hdlr is reached with the vector byte of the context below NR_EXCP, and that byte is then
      below 20 in every run. */
  lemma ExceptionNameInBounds(env: Env, k: Kernel, es: seq<Event>)
    requires Valid(env) && Initial(k) && Run(env, k, es).Running?
    requires Handling(Run(env, k, es).k) && LastLevel(Run(env, k, es).k).prog.Stub?
    ensures var k' := Run(env, k, es).k;
      var c := LastLevel(k').base + 4;
      && 0 <= c <= SPACE - 36 && SavedVector(k'.cpu.mem, c) == LastLevel(k').vector
      && Rd32(k'.cpu.mem, c + 32) % 0x100 == LastLevel(k').vector
      && (SavedVector(k'.cpu.mem, c) < 32 ==> SavedVector(k'.cpu.mem, c) < 20)
  {
    InitialSound(env, k);
    RunSound(env, k, es);
    HandlerVector(env, Run(env, k, es).k);
  }

  /** intr_hdlr and excp_hdlr, wherever in a run they are entered: the vector byte they read from the
      context is that of the interruption, the exception name printed is that vector's, found without
      leaving the table although the test is only for 32, and they come back exactly for the NMI and
      from vector 32 on, as the transition system has it. */
  method IntrHdlr(mem: array<Byte>, ctx: int, names: seq<string>, ghost env: Env, ghost k: Kernel)
    returns (name: Option<string>, back: bool)
    requires Sound(env, k) && Handling(k) && LastLevel(k).prog.Stub?
    requires mem.Length == SPACE && mem[..] == k.cpu.mem && ctx == LastLevel(k).base + 4
    requires |names| == 20
    ensures var l := LastLevel(k);
      && (l.vector < 20 || l.vector >= 32)
      && name == (if l.vector < 20 then Some(names[l.vector]) else None)
      && (back <==> l.vector == 2 || l.vector >= 32) && (back <==> HandlerReturns(l.prog, k.cpu.mem, ctx))
  {
    HandlerVector(env, k);
    var nr := LoadDword(mem, ctx + NR);
    var vector := nr % 0x100;
    if vector < NR_EXCP {
      name := Some(names[vector]);
      back := vector == NMI_EXCP;
    } else {
      name := None;
      back := true;
    }
  }

  // ---- Rings --------------------------------------------------------------------------------------------

  /** In every run CPL, the RPL of CS and that of SS agree, and ring 3 runs only with no interruption
      in progress: every interruption executes in ring 0 with interrupts off. */
  lemma RingDiscipline(env: Env, k: Kernel, es: seq<Event>)
    requires Valid(env) && Initial(k) && Run(env, k, es).Running?
    ensures var k' := Run(env, k, es).k;
      && RingsAgree(k'.cpu)
      && (Cpl(k'.cpu) == 3 ==> k'.levels == [])
      && (k'.levels != [] ==> Cpl(k'.cpu) == 0 && !IfOn(k'.cpu.eflags))
  {
    InitialSound(env, k);
    RunSound(env, k, es);
    var k' := Run(env, k, es).k;
    if k'.levels != [] { LastInv(env, k'); }
  }

  /** Every entry from ring 3 starts on the same words at the top of the TSS's ring 0 stack, so the
      kernel stack cannot grow from one entry to the next. INT n enters the system call routine for
      n = 48 and is a protection fault naming gate n for every other n. */
  lemma EntryFromRing3(env: Env, k: Kernel, e: Event)
    requires Valid(env) && Sound(env, k) && Cpl(k.cpu) == 3 && Interrupts(e) && Step(env, k, e).Running?
    ensures |Step(env, k, e).k.levels| == 1
    ensures var k' := Step(env, k, e).k;
      && k'.cpu.cs == 8 && k'.cpu.ss == env.ss0
      && k'.cpu.esp == env.esp0 - 20 - 4 * |LastLevel(k').code|
    ensures e.SoftInt? ==>
      var l := LastLevel(Step(env, k, e).k);
      if e.vector == 48 && env.syscall then l.prog == Syscall && l.code == [] && l.saved == k.cpu.(eip := e.next)
      else l.prog == Stub(13) && l.code == [8 * e.vector + 2] && l.saved == k.cpu
  {
    if k.levels != [] { LastInv(env, k); }
    InterruptSound(env, k, e);
    EntryPlace(env, k, Step(env, k, e).k, Interrupted(env, k, e), VectorOf(env, k, e));
    if e.SoftInt? { SoftIntEntry(env, k, e.vector, e.next); }
  }

  lemma EntryPlace(env: Env, k: Kernel, k': Kernel, s: State, vector: nat)
    requires k.levels == [] && Delivered(env, k, k', s, vector) && Cpl(s) == 3
    ensures |k'.levels| == 1 && k'.cpu.cs == KERNEL_CODE && k'.cpu.ss == env.ss0
    ensures k'.cpu.esp == env.esp0 - 20 - 4 * |LastLevel(k').code|
  {
  }

  lemma SoftIntEntry(env: Env, k: Kernel, v: nat, next: Word)
    requires Valid(env) && k.levels == [] && Cpl(k.cpu) == 3 && Step(env, k, SoftInt(v, next)).Running?
    ensures var k' := Step(env, k, SoftInt(v, next)).k;
      && |k'.levels| == 1
      && var l := LastLevel(k');
        if v == 48 && env.syscall then l.prog == Syscall && l.code == [] && l.saved == k.cpu.(eip := next)
        else l.prog == Stub(13) && l.code == [8 * v + 2] && l.saved == k.cpu
  {
    EntryOfGate(env, v);
    EntryOfGate(env, 13);
  }

  /** System call round trip: INT 48 from ring 3, whatever happens until ring 3 runs again, comes back
      after the instruction with every register, ESP, EFLAGS, CS and SS as they were, and with all user
      memory that lies neither on the kernel stack below esp0 nor in the handlers' own data. */
  lemma SystemCallRoundTrip(env: Env, k: Kernel, next: Word, es: seq<Event>, k2: Kernel, user: set<int>)
    requires Valid(env) && env.syscall && Sound(env, k) && Cpl(k.cpu) == 3
    requires Step(env, k, SoftInt(48, next)).Running?
    requires Episode(env, Step(env, k, SoftInt(48, next)).k, es, k2, 0)
    requires forall a :: a in user ==> 0 <= a < SPACE && a !in env.own && !(env.lo <= a < env.esp0)
    ensures k2.levels == [] && k2.cpu == k.cpu.(eip := next, mem := k2.cpu.mem, pics := k2.cpu.pics)
    ensures forall a :: a in user ==> k2.cpu.mem[a] == k.cpu.mem[a]
  {
    if k.levels != [] { LastInv(env, k); }
    EntryOfGate(env, 48);
    InterruptionIsTransparent(env, k, SoftInt(48, next), es, k2);
  }

  /** The pushes with which tp() prepares to leave for ring 3; an IRET follows them. */
  function OuterFrame(userland: Word): seq<Instr> {
    [PushImm(USER_DATA), PushEbp, Pushf, PushImm(USER_CODE), PushImm(userland)]
  }

  /** Straight-line execution, EIP left aside. */
  function ExecAll(env: Env, s: State, code: seq<Instr>): Option<State>
    decreases |code|
  {
    if code == [] then Some(s)
    else match Exec(env, code[0], s, s.eip, s.eip)
      case None => None
      case Some(t) => ExecAll(env, t, code[1..])
  }

  lemma PushOnto(env: Env, s: State, w: Word, below: seq<Word>)
    requires Push(env, s, [w]).Some? && s.esp + 4 * |below| <= SPACE && Holds(s.mem, s.esp, below)
    ensures var t := Push(env, s, [w]).value;
      t == s.(esp := s.esp - 4, mem := t.mem) && Holds(t.mem, t.esp, [w] + below)
  {
    PushHolds(env, s, [w], below);
  }

  predicate IsPush(i: Instr) { i.PushImm? || i.PushEbp? || i.Pushf? }

  /** What one of the pushes puts on the stack. */
  function Pushed(i: Instr, ebp: Word, eflags: Word): Word {
    match i
    case PushImm(w) => w
    case PushEbp => ebp
    case _ => eflags
  }

  function Stacked(pushes: seq<Instr>, ebp: Word, eflags: Word): seq<Word> {
    if pushes == [] then [] else Stacked(pushes[1..], ebp, eflags) + [Pushed(pushes[0], ebp, eflags)]
  }

  lemma {:induction false} PushRun(env: Env, s: State, pushes: seq<Instr>, rest: seq<Instr>, t: State, below: seq<Word>) returns (u: State)
    requires ExecAll(env, s, pushes + rest) == Some(t) && (forall i :: i in pushes ==> IsPush(i))
    requires s.esp + 4 * |below| <= SPACE && Holds(s.mem, s.esp, below)
    ensures u == s.(esp := u.esp, mem := u.mem) && u.esp == s.esp - 4 * |pushes| && ExecAll(env, u, rest) == Some(t)
    ensures |Stacked(pushes, s.r.ebp, s.eflags)| == |pushes|
    ensures Holds(u.mem, u.esp, Stacked(pushes, s.r.ebp, s.eflags) + below)
    decreases |pushes|
  {
    if pushes == [] {
      u := s;
      assert pushes + rest == rest && Stacked(pushes, s.r.ebp, s.eflags) + below == below;
    } else {
      var w := Pushed(pushes[0], s.r.ebp, s.eflags);
      assert IsPush(pushes[0]) && (pushes + rest)[1..] == pushes[1..] + rest;
      ExecIsOn(env, pushes[0], s, s.eip, s.eip);
      var v := Push(env, s, [w]).value;
      PushOnto(env, s, w, below);
      u := PushRun(env, v, pushes[1..], rest, t, [w] + below);
      assert Stacked(pushes[1..], s.r.ebp, s.eflags) + ([w] + below) == Stacked(pushes, s.r.ebp, s.eflags) + below;
    }
  }

  lemma LastIret(env: Env, u: State, t: State)
    requires ExecAll(env, u, [Iret]) == Some(t)
    ensures IretFrom(env, u) == Some(t)
  {
  }

  lemma OuterWords(userland: Word, ebp: Word, eflags: Word)
    ensures Stacked(OuterFrame(userland), ebp, eflags) == [userland, USER_CODE, eflags, ebp, USER_DATA]
  {
    var p1 := [PushImm(userland)];
    var p2 := [PushImm(USER_CODE), PushImm(userland)];
    var p3 := [Pushf, PushImm(USER_CODE), PushImm(userland)];
    var p4 := [PushEbp, Pushf, PushImm(USER_CODE), PushImm(userland)];
    assert p2[1..] == p1 && p3[1..] == p2 && p4[1..] == p3 && OuterFrame(userland)[1..] == p4;
    assert Stacked(p1, ebp, eflags) == [userland];
    assert Stacked(p2, ebp, eflags) == [userland, USER_CODE];
    assert Stacked(p3, ebp, eflags) == [userland, USER_CODE, eflags];
    assert Stacked(p4, ebp, eflags) == [userland, USER_CODE, eflags, ebp];
  }

  /** The hand-made frame: IRET lands in ring 3 at userland with EBP as stack pointer, everything
      else unchanged; from there RingDiscipline speaks of every run. */
  lemma TaskStart(env: Env, s: State, userland: Word, t: State)
    requires Cpl(s) == 0 && ExecAll(env, s, OuterFrame(userland) + [Iret]) == Some(t)
    ensures t == s.(esp := s.r.ebp, eip := userland, cs := 27, ss := 35, mem := t.mem)
    ensures RingsAgree(t) && Cpl(t) == 3
  {
    var u := PushRun(env, s, OuterFrame(userland), [Iret], t, []);
    LastIret(env, u, t);
    OuterWords(userland, s.r.ebp, s.eflags);
    var task := s.(esp := s.r.ebp, eip := userland, cs := USER_CODE, ss := USER_DATA);
    assert Stacked(OuterFrame(userland), s.r.ebp, s.eflags) + [] == Frame(task, []);
    IretReads(env, u, t, task);
  }

  /** The program below all interruptions runs in ring 3. */
  predicate UserBelow(k: Kernel) {
    Cpl(if k.levels == [] then k.cpu else k.levels[0].saved) == 3
  }

  lemma UserEvolves(env: Env, k: Kernel, k': Kernel)
    requires UserBelow(k) && k.levels != [] && Evolves(env, k, k')
    ensures UserBelow(k')
  {
    var n := |k.levels|;
    if k'.levels != k.levels && |k'.levels| == n {
      if n > 1 { assert k'.levels[0] == k'.levels[..n - 1][0] == k.levels[0]; }
    } else if |k'.levels| == n + 1 {
      assert k'.levels[0] == k'.levels[..n][0] == k.levels[0];
    } else if n > 1 && k'.levels == k.levels[..n - 1] {
      assert k'.levels[0] == k.levels[0];
    }
  }

  lemma UserInterrupted(env: Env, k: Kernel, e: Event)
    requires Valid(env) && Sound(env, k) && UserBelow(k) && k.levels == [] && Interrupts(e) && Step(env, k, e).Running?
    ensures UserBelow(Step(env, k, e).k)
  {
    InterruptSound(env, k, e);
  }

  lemma UserStep(env: Env, k: Kernel, e: Event)
    requires Valid(env) && Sound(env, k) && UserBelow(k) && Step(env, k, e).Running?
    ensures UserBelow(Step(env, k, e).k)
  {
    if k.levels != [] {
      StepSound(env, k, e);
      UserEvolves(env, k, Step(env, k, e).k);
    } else if Interrupts(e) {
      UserInterrupted(env, k, e);
    }
  }

  lemma {:induction false} UserRun(env: Env, k: Kernel, es: seq<Event>)
    requires Valid(env) && Sound(env, k) && UserBelow(k) && Run(env, k, es).Running?
    ensures UserBelow(Run(env, k, es).k)
    decreases |es|
  {
    if es != [] {
      StepSound(env, k, es[0]);
      UserStep(env, k, es[0]);
      UserRun(env, Step(env, k, es[0]).k, es[1..]);
    }
  }

  /** From the moment tp() leaves for ring 3, every run keeps the ring discipline, and whenever no
      interruption is in progress it is ring 3 that runs: ring 0 is entered through interruptions only. */
  lemma RingsFromTaskStart(env: Env, s: State, userland: Word, t: State, es: seq<Event>)
    requires Valid(env) && Cpl(s) == 0 && ExecAll(env, s, OuterFrame(userland) + [Iret]) == Some(t)
    requires Configured(s.pics) && s.pics.master.isr == {} && s.pics.slave.isr == {}
    requires Run(env, Kernel(t, []), es).Running?
    ensures var k' := Run(env, Kernel(t, []), es).k;
      && RingsAgree(k'.cpu)
      && (Cpl(k'.cpu) == 3 <==> k'.levels == [])
      && (k'.levels != [] ==> !IfOn(k'.cpu.eflags))
  {
    TaskStart(env, s, userland, t);
    RingDiscipline(env, Kernel(t, []), es);
    UserRun(env, Kernel(t, []), es);
  }
}
