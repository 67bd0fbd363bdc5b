/** From an event to its handler and back: runs that exist, with what the handler finds in memory. */
module Service {
  import opened Memory
  import opened Wrappers
  import opened Pic
  import opened Descriptors
  import opened Machine
  import opened Paths
  import opened Levels
  import opened Runs
  import opened Guarantees
  import opened Consequences
  import opened Progress
  import opened Completion
  import opened Execution
  import opened Acceptance

  // ---- To the handler -------------------------------------------------------------------------------------

  /** The call passes the address of the context in EAX and touches no register. */
  lemma Called(env: Env, k: Kernel, k1: Kernel)
    requires Valid(env) && Sound(env, k) && k.levels != [] && GoStep(env, k) == Running(k1)
    requires LastLevel(k).pos < |env.code(LastLevel(k).prog)| && env.code(LastLevel(k).prog)[LastLevel(k).pos] == Call
    requires IsProg(LastLevel(k).prog)
    ensures k1.cpu.r == LastLevel(k).saved.r.(eax := k.cpu.esp) && k1.cpu.esp == k.cpu.esp - 4
    ensures k1.levels != [] && LastLevel(k1).base == k1.cpu.esp
  {
    CallPassesContext(env, k);
    var i, x := GoStepIs(env, k);
    CallDoes(env, k, x);
  }

  lemma CallDoes(env: Env, k: Kernel, x: Option<State>)
    requires k.levels != [] && x == ExecAt(env, LastLevel(k), Call, k.cpu) && GoInstr(env, k, Call, x).Running?
    ensures var k1 := GoInstr(env, k, Call, x).k;
      && k1.cpu.r == k.cpu.r && k1.cpu.esp == k.cpu.esp - 4
      && k1.levels != [] && LastLevel(k1).base == k1.cpu.esp
  {
    ExecIsOn(env, Call, k.cpu, env.at(LastLevel(k).prog, LastLevel(k).pos + 1), env.at(LastLevel(k).prog, LastLevel(k).pos + 2));
  }

  lemma CallAt(env: Env, l: Level)
    requires Loaded(env) && IsProg(l.prog) && !BareIret(l) && l.pos + 1 == RetIdx(l.prog)
    ensures l.pos < |env.code(l.prog)| && env.code(l.prog)[l.pos] == Call
  {
    InMemory(env, l.prog);
  }

  /** The handler has just been called: EAX and ESP + 4 are the address of its context, every other register is
      the interrupted program's. */
  ghost predicate AtEntry(k: Kernel) {
    && Handling(k) && k.cpu.esp == LastLevel(k).base
    && k.cpu.r == LastLevel(k).saved.r.(eax := k.cpu.r.eax) && k.cpu.r.eax == LastLevel(k).base + 4
  }

  lemma EntryAfterCall(env: Env, k: Kernel, kh: Kernel)
    requires Valid(env) && Underway(env, k) && LastLevel(k).pos + 1 == RetIdx(LastLevel(k).prog)
    requires GoStep(env, k) == Running(kh) && Handling(kh) && SameStack(k, kh)
    ensures AtEntry(kh)
  {
    CallAt(env, LastLevel(k));
    Called(env, k, kh);
  }

  lemma ReachesEntry(env: Env, k: Kernel) returns (n: nat, kh: Kernel)
    requires Valid(env) && Underway(env, k) && LastLevel(k).pos == 0
    ensures Run(env, k, Gos(n)) == Running(kh) && Sound(env, kh) && AtEntry(kh) && SameStack(k, kh)
  {
    n := RetIdx(LastLevel(k).prog);
    RetIdxPositive(LastLevel(k).prog);
    InMemory(env, LastLevel(k).prog);
    var ks := ChainToHandler(env, k, n);
    ChainIsRun(env, ks);
    ChainGoesOn(env, ks);
    var ss := ChainTrace(env, ks, LastLevel(k).prog, 0);
    kh := ks[n];
    var kc := ks[n - 1];
    assert GoStep(env, ks[n - 1]) == Running(ks[n - 1 + 1]) && GoesOn(env, ks[n - 1], ks[n - 1 + 1]);
    StillFlat(env, kc, kh);
    EntryAfterCall(env, kc, kh);
  }

  lemma StillFlat(env: Env, k: Kernel, k1: Kernel)
    requires GoesOn(env, k, k1) && |k1.levels| == |k.levels|
    ensures SameStack(k, k1) && LastLevel(k1).pos == LastLevel(k).pos + 1
  {
  }

  /** Stack for the longest frame and the longest path. */
  predicate HasStack(env: Env, s: State) {
    if s.cs % 4 == 3 then env.lo + 408 <= env.esp0 <= env.hi else env.lo + 408 <= s.esp <= env.hi
  }

  lemma EnteredUnderway(env: Env, k: Kernel, k1: Kernel, s: State, v: nat, code: seq<Word>)
    requires Sound(env, k1) && Enters(env, k, k1, s, v, code) && |code| <= 1 && v < 256 && !Reserved(v)
    requires HasStack(env, s)
    ensures Underway(env, k1) && LastLevel(k1).pos == 0
  {
    RetIdxPositive(LastLevel(k1).prog);
  }

  /** An event that enters through a vector with a handler gets there by its own instructions. */
  lemma EventReachesHandler(env: Env, k: Kernel, e: Event, s: State, v: nat, code: seq<Word>) returns (n: nat, kh: Kernel)
    requires Valid(env) && Sound(env, k) && Step(env, k, e).Running? && Enters(env, k, Step(env, k, e).k, s, v, code)
    requires |code| <= 1 && v < 256 && !Reserved(v) && HasStack(env, s)
    ensures Run(env, k, [e] + Gos(n)) == Running(kh) && Sound(env, kh) && AtEntry(kh)
    ensures SameStack(Step(env, k, e).k, kh)
  {
    var k1 := Step(env, k, e).k;
    StepSound(env, k, e);
    EnteredUnderway(env, k, k1, s, v, code);
    n, kh := ReachesEntry(env, k1);
    RunOne(env, k, e);
    RunSplit(env, k, [e], Gos(n));
  }

  /** What intr_hdlr finds at the address in EAX: vector at 32, code or -1 at 36, the interrupted registers and
      frame. */
  ghost predicate FindsContext(kh: Kernel, s: State, nr: Word, err: Word) {
    var c := kh.cpu.r.eax;
    && c + 40 + (if s.cs % 4 == 3 then 20 else 12) <= SPACE
    && ShowsGpr(kh.cpu.mem, c, s.r) && Rd32(kh.cpu.mem, c + 32) == nr && Rd32(kh.cpu.mem, c + 36) == err
    && ShowsFrame(kh.cpu.mem, c + 40, s)
  }

  lemma SameInterruption(env: Env, k: Kernel, k1: Kernel, kh: Kernel, s: State, v: nat, code: seq<Word>)
    requires Enters(env, k, k1, s, v, code) && SameStack(k1, kh)
    ensures |kh.levels| == |k.levels| + 1
    ensures LastLevel(kh).saved == s && LastLevel(kh).vector == v && LastLevel(kh).code == code
    ensures LastLevel(kh).prog == if v == 48 && env.syscall then Syscall else Stub(v)
  {
  }

  lemma ContextFound(env: Env, kh: Kernel)
    requires Sound(env, kh) && AtEntry(kh) && LastLevel(kh).prog.Stub?
    requires |LastLevel(kh).code| == if LastLevel(kh).vector in {8, 10, 11, 12, 13, 14, 17} then 1 else 0
    ensures var l := LastLevel(kh);
      FindsContext(kh, l.saved, l.vector, if |l.code| == 1 then l.code[0] else 0xffff_ffff)
  {
    HandlerSees(env, kh);
  }

  lemma StubFinds(env: Env, k: Kernel, k1: Kernel, kh: Kernel, s: State, v: nat, code: seq<Word>)
    requires Enters(env, k, k1, s, v, code) && SameStack(k1, kh) && Sound(env, kh) && AtEntry(kh)
    requires v < 256 && !(v == 48 && env.syscall) && |code| == if v in {8, 10, 11, 12, 13, 14, 17} then 1 else 0
    ensures FindsContext(kh, s, v, if |code| == 1 then code[0] else 0xffff_ffff)
  {
    SameInterruption(env, k, k1, kh, s, v, code);
    ContextFound(env, kh);
  }

  /** Every exception gets to its handler, with the CPU's code in the context for 8, 10 to 14 and 17 and -1 for
      every other vector. */
  lemma FaultReachesHandler(env: Env, k: Kernel, v: nat, code: seq<Word>) returns (n: nat, kh: Kernel)
    requires Valid(env) && Sound(env, k) && HasStack(env, k.cpu)
    requires v < 20 && |code| == if v in {8, 10, 11, 12, 13, 14, 17} then 1 else 0
    ensures Run(env, k, [Fault(v, code)] + Gos(n)) == Running(kh) && AtEntry(kh) && |kh.levels| == |k.levels| + 1
    ensures FindsContext(kh, k.cpu, v, if v in {8, 10, 11, 12, 13, 14, 17} then code[0] else 0xffff_ffff)
  {
    FaultTaken(env, k, v, code);
    n, kh := EventReachesHandler(env, k, Fault(v, code), k.cpu, v, code);
    StubFinds(env, k, Step(env, k, Fault(v, code)).k, kh, k.cpu, v, code);
  }

  lemma AckedInHandler(env: Env, k: Kernel)
    requires Sound(env, k) && |k.levels| == 1 && Handling(k)
    ensures NothingInService(k.cpu.pics)
  {
    LastProper(env, k);
    InServiceExactly(k);
  }

  /** Every request, spurious or not, gets to intr_hdlr with its vector and -1, and with nothing left in
      service. */
  lemma RequestReachesHandler(env: Env, k: Kernel, q: Irq) returns (n: nat, kh: Kernel)
    requires Valid(env) && Sound(env, k) && HasStack(env, k.cpu) && Test(k.cpu.eflags, 9) && q.Valid()
    ensures Run(env, k, [External(q)] + Gos(n)) == Running(kh) && AtEntry(kh) && |kh.levels| == 1
    ensures FindsContext(kh, k.cpu, VectorOfIrq(q), 0xffff_ffff) && NothingInService(kh.cpu.pics)
  {
    RequestTaken(env, k, q);
    var k1 := Step(env, k, External(q)).k;
    var s := k.cpu.(pics := k1.cpu.pics);
    n, kh := EventReachesHandler(env, k, External(q), s, VectorOfIrq(q), []);
    StubFinds(env, k, k1, kh, s, VectorOfIrq(q), []);
    AckedInHandler(env, kh);
  }

  /** INT n from ring 3 for any other n gets to intr_hdlr as a protection fault naming gate n. */
  lemma RefusedReachesHandler(env: Env, k: Kernel, v: nat, next: Word) returns (n: nat, kh: Kernel)
    requires Valid(env) && Sound(env, k) && HasStack(env, k.cpu) && k.levels == [] && k.cpu.cs % 4 == 3
    requires v < 256 && !(v == 48 && env.syscall)
    ensures Run(env, k, [SoftInt(v, next)] + Gos(n)) == Running(kh) && AtEntry(kh) && |kh.levels| == 1
    ensures FindsContext(kh, k.cpu, 13, 8 * v + 2)
  {
    SoftIntTaken(env, k, v, next);
    n, kh := EventReachesHandler(env, k, SoftInt(v, next), k.cpu, 13, [8 * v + 2]);
    StubFinds(env, k, Step(env, k, SoftInt(v, next)).k, kh, k.cpu, 13, [8 * v + 2]);
  }

  /** INT n from ring 0, for vectors with a handler and without an error code, gets to intr_hdlr with n and -1;
      the frame resumes after the instruction. */
  lemma SoftIntReachesHandler(env: Env, k: Kernel, v: nat, next: Word) returns (n: nat, kh: Kernel)
    requires Valid(env) && Sound(env, k) && HasStack(env, k.cpu) && k.levels == [] && k.cpu.cs % 4 == 0
    requires v < 256 && !(20 <= v < 32) && !(v == 48 && env.syscall) && v !in {8, 10, 11, 12, 13, 14, 17}
    ensures Run(env, k, [SoftInt(v, next)] + Gos(n)) == Running(kh) && AtEntry(kh) && |kh.levels| == 1
    ensures FindsContext(kh, k.cpu.(eip := next), v, 0xffff_ffff)
  {
    SoftIntTaken(env, k, v, next);
    n, kh := EventReachesHandler(env, k, SoftInt(v, next), k.cpu.(eip := next), v, []);
    StubFinds(env, k, Step(env, k, SoftInt(v, next)).k, kh, k.cpu.(eip := next), v, []);
  }

  /** INT 48 from ring 3 is taken and gets to syscall_handler, which finds the caller's EAX at 28 and ESI at 4
      from the address in EAX, and the frame at 32. */
  lemma SystemCallReachesHandler(env: Env, k: Kernel, next: Word) returns (n: nat, kh: Kernel)
    requires Valid(env) && env.syscall && Sound(env, k) && HasStack(env, k.cpu) && k.levels == [] && k.cpu.cs % 4 == 3
    ensures Step(env, k, SoftInt(48, next)).Running? && Step(env, k, SoftInt(48, next)).k.cpu.eip == env.syscallIsr
    ensures Run(env, k, [SoftInt(48, next)] + Gos(n)) == Running(kh) && AtEntry(kh) && |kh.levels| == 1
    ensures var c, m := kh.cpu.r.eax, kh.cpu.mem;
      && c + 52 == env.esp0 && ShowsGpr(m, c, k.cpu.r) && Rd32(m, c + 28) == k.cpu.r.eax && Rd32(m, c + 4) == k.cpu.r.esi
      && ShowsFrame(m, c + 32, k.cpu.(eip := next))
  {
    SoftIntTaken(env, k, 48, next);
    n, kh := EventReachesHandler(env, k, SoftInt(48, next), k.cpu.(eip := next), 48, []);
    SyscallHandlerSees(env, kh);
  }

  // ---- And back -------------------------------------------------------------------------------------------

  lemma EnteredCanFinish(env: Env, k: Kernel, k1: Kernel, s: State, v: nat, code: seq<Word>)
    requires Sound(env, k1) && Enters(env, k, k1, s, v, code) && |code| <= 1 && v < 256 && HasStack(env, s)
    requires v == 2 || v >= 20
    ensures CanFinish(env, k1)
  {
    RetIdxPositive(LastLevel(k1).prog);
  }

  lemma InterruptedIs(env: Env, k: Kernel, e: Event, s: State, v: nat, code: seq<Word>)
    requires Valid(env) && Sound(env, k) && Interrupts(e) && Step(env, k, e).Running? && Enters(env, k, Step(env, k, e).k, s, v, code)
    ensures (e.SoftInt? ==> e.vector < 256) && Interrupted(env, k, e) == s
  {
    InterruptSound(env, k, e);
  }

  lemma EventServed(env: Env, k: Kernel, e: Event, s: State, v: nat, code: seq<Word>) returns (es: seq<Event>, k2: Kernel)
    requires Valid(env) && Sound(env, k) && Interrupts(e) && Step(env, k, e).Running? && Enters(env, k, Step(env, k, e).k, s, v, code)
    requires |code| <= 1 && v < 256 && HasStack(env, s) && (v == 2 || v >= 20)
    ensures Run(env, k, [e] + es) == Running(k2) && OnlyGo(es) && Transparent(env, s, k2.cpu) && k2.levels == k.levels
    ensures Episode(env, Step(env, k, e).k, es, k2, |k.levels|)
  {
    var k1 := Step(env, k, e).k;
    InterruptSound(env, k, e);
    InterruptedIs(env, k, e, s, v, code);
    EnteredCanFinish(env, k, k1, s, v, code);
    es, k2 := InterruptionEnds(env, k, e);
    EpisodeIsRun(env, k1, es, k2, |k.levels|);
    RunOne(env, k, e);
    RunSplit(env, k, [e], es);
  }

  lemma PanicsForever(env: Env, k: Kernel, k1: Kernel, s: State, v: nat, code: seq<Word>)
    requires Valid(env) && Sound(env, k1) && Enters(env, k, k1, s, v, code) && v < 20 && v != 2
    ensures !CanEnd(env, k1, |k.levels|)
  {
    forall es, k2
      ensures !Episode(env, k1, es, k2, |k.levels|)
    {
      NeverEnds(env, k1, es, k2, |k.levels|);
    }
  }

  /** Some sequence of events leads from k1 back to n interruptions. */
  ghost predicate CanEnd(env: Env, k1: Kernel, n: nat)
    requires |env.idt| == IDT_NR_DESC
  {
    exists es, k2 :: Episode(env, k1, es, k2, n)
  }

  lemma EndWitness(env: Env, k1: Kernel, es: seq<Event>, k2: Kernel, n: nat)
    requires |env.idt| == IDT_NR_DESC && Episode(env, k1, es, k2, n)
    ensures CanEnd(env, k1, n)
  {
  }

  /** An event that enters through vector v can be followed to the end of the interruption if and only if v is the
      NMI's, one of 20 to 31, or one from 32 on. */
  lemma EndsExactly(env: Env, k: Kernel, e: Event, k1: Kernel, s: State, v: nat, code: seq<Word>)
    requires Valid(env) && Sound(env, k) && Interrupts(e) && Step(env, k, e) == Running(k1) && Enters(env, k, k1, s, v, code)
    requires |code| <= 1 && v < 256 && HasStack(env, s)
    ensures CanEnd(env, k1, |k.levels|) <==> v == 2 || v >= 20
  {
    if v == 2 || v >= 20 {
      var es, k2 := EventServed(env, k, e, s, v, code);
      EndWitness(env, k1, es, k2, |k.levels|);
    } else {
      StepSound(env, k, e);
      PanicsForever(env, k, k1, s, v, code);
    }
  }

  /** The NMI, at any moment: taken, served and over, the interrupted program as it was. */
  lemma NmiServed(env: Env, k: Kernel) returns (es: seq<Event>, k2: Kernel)
    requires Valid(env) && Sound(env, k) && HasStack(env, k.cpu)
    ensures Run(env, k, [Fault(2, [])] + es) == Running(k2) && OnlyGo(es)
    ensures Transparent(env, k.cpu, k2.cpu) && k2.levels == k.levels
  {
    FaultTaken(env, k, 2, []);
    es, k2 := EventServed(env, k, Fault(2, []), k.cpu, 2, []);
  }

  /** A request, spurious or not: taken, acknowledged and over. */
  lemma RequestServed(env: Env, k: Kernel, q: Irq) returns (es: seq<Event>, k2: Kernel)
    requires Valid(env) && Sound(env, k) && HasStack(env, k.cpu) && Test(k.cpu.eflags, 9) && q.Valid()
    ensures Run(env, k, [External(q)] + es) == Running(k2) && OnlyGo(es)
    ensures Transparent(env, k.cpu, k2.cpu) && k2.levels == [] && NothingInService(k2.cpu.pics)
  {
    RequestTaken(env, k, q);
    var s := k.cpu.(pics := Step(env, k, External(q)).k.cpu.pics);
    es, k2 := EventServed(env, k, External(q), s, VectorOfIrq(q), []);
    RunSound(env, k, [External(q)] + es);
  }

  /** The system call, start to end: INT 48 in ring 3 is taken and there is a run that comes back after the
      instruction, every register, ESP, EFLAGS, CS and SS as they were, and user memory off the kernel stack and
      the handlers' data too. */
  lemma SystemCallServed(env: Env, k: Kernel, next: Word, user: set<int>) returns (es: seq<Event>, k2: Kernel)
    requires Valid(env) && env.syscall && Sound(env, k) && HasStack(env, k.cpu) && k.levels == [] && k.cpu.cs % 4 == 3
    requires forall a :: a in user ==> 0 <= a < SPACE && a !in env.own && !(env.lo <= a < env.esp0)
    ensures Run(env, k, [SoftInt(48, next)] + es) == Running(k2) && OnlyGo(es) && k2.levels == []
    ensures k2.cpu == k.cpu.(eip := next, mem := k2.cpu.mem, pics := k2.cpu.pics)
    ensures forall a :: a in user ==> k2.cpu.mem[a] == k.cpu.mem[a]
  {
    SoftIntTaken(env, k, 48, next);
    es, k2 := EventServed(env, k, SoftInt(48, next), k.cpu.(eip := next), 48, []);
    SystemCallRoundTrip(env, k, next, es, k2, user);
  }
}
