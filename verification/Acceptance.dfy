/** Which events are taken and what the processor does with them, in numbers: selectors, flags, the words
    pushed, where control goes. */
module Acceptance {
  import opened Memory
  import opened Wrappers
  import opened Pic
  import opened Descriptors
  import opened Machine
  import opened Stack
  import opened Levels
  import opened Runs
  import opened Controllers
  import opened Guarantees
  import opened Consequences
  import opened Progress
  import opened Completion

  // ---- Delivery -------------------------------------------------------------------------------------------

  /** There is stack for a frame with so many error codes: three words, two more from ring 3. */
  predicate Fits(env: Env, s: State, codes: nat) {
    if s.cs % 4 == 3 then env.lo + 20 + 4 * codes <= env.esp0 <= env.hi
    else env.lo + 12 + 4 * codes <= s.esp <= env.hi
  }

  /** k1 is k with the program in state s interrupted through vector v: control at the vector's code in
      segment 8, flags TF, IF, NT, RF and VM cleared and no other, registers as they were. */
  ghost predicate Enters(env: Env, k: Kernel, k1: Kernel, s: State, v: nat, code: seq<Word>) {
    && |k1.levels| == |k.levels| + 1 && k1.levels[..|k.levels|] == k.levels
    && LastLevel(k1).saved == s && LastLevel(k1).vector == v && LastLevel(k1).code == code && LastLevel(k1).pos == 0
    && LastLevel(k1).prog == (if v == 48 && env.syscall then Syscall else Stub(v))
    && k1.cpu.eip == (if v == 48 && env.syscall then env.syscallIsr else env.trampoline + 16 * v)
    && k1.cpu.cs == 8 && k1.cpu.r == s.r && k1.cpu.pics == s.pics
    && (forall b :: Test(k1.cpu.eflags, b) <==> b !in {8, 9, 14, 16, 17} && Test(s.eflags, b))
    && FramePushed(env, k1.cpu, s, code)
  }

  /** The frame: the code if any, EIP, CS, EFLAGS, and from ring 3, on the TSS's stack, ESP and SS. */
  ghost predicate FramePushed(env: Env, t: State, s: State, code: seq<Word>) {
    var top, f := if s.cs % 4 == 3 then env.esp0 else s.esp, t.esp + 4 * |code|;
    && t.esp + 4 * |code| + (if s.cs % 4 == 3 then 20 else 12) == top <= SPACE
    && t.ss == (if s.cs % 4 == 3 then env.ss0 else s.ss)
    && (forall i :: 0 <= i < |code| ==> Rd32(t.mem, t.esp + 4 * i) == code[i])
    && Rd32(t.mem, f) == s.eip && Rd32(t.mem, f + 4) == s.cs && Rd32(t.mem, f + 8) == s.eflags
    && (s.cs % 4 == 3 ==> Rd32(t.mem, f + 12) == s.esp && Rd32(t.mem, f + 16) == s.ss)
    && SameOutside(s.mem, t.mem, t.esp, top)
  }

  lemma FrameWords(env: Env, s: State, code: seq<Word>, m: Space, a: int)
    requires 0 <= a && a + 4 * |Frame(s, code)| <= SPACE && Holds(m, a, Frame(s, code))
    ensures forall i :: 0 <= i < |code| ==> Rd32(m, a + 4 * i) == code[i]
    ensures var f := a + 4 * |code|;
      && Rd32(m, f) == s.eip && Rd32(m, f + 4) == s.cs && Rd32(m, f + 8) == s.eflags
      && (s.cs % 4 == 3 ==> Rd32(m, f + 12) == s.esp && Rd32(m, f + 16) == s.ss)
  {
    var ws, n := Frame(s, code), |code|;
    forall i | 0 <= i < n
      ensures Rd32(m, a + 4 * i) == code[i]
    {
      HoldsAt(m, a, ws, i);
    }
    HoldsAt(m, a, ws, n); HoldsAt(m, a, ws, n + 1); HoldsAt(m, a, ws, n + 2);
    if s.cs % 4 == 3 { HoldsAt(m, a, ws, n + 3); HoldsAt(m, a, ws, n + 4); }
  }

  lemma EnterPushes(env: Env, s: State, gate: Gate, code: seq<Word>)
    requires Room(env, FrameTop(env, s), |Frame(s, code)|)
    ensures FramePushed(env, Enter(env, s, gate, Frame(s, code)), s, code)
  {
    var ws := Frame(s, code);
    var esp := FrameTop(env, s) - 4 * |ws|;
    PutHolds(s.mem, esp, ws);
    FrameWords(env, s, code, Put(s.mem, esp, ws), esp);
  }

  lemma FlagsCleared(f: Word)
    ensures forall b :: Test(GateFlags(f), b) <==> b !in {8, 9, 14, 16, 17} && Test(f, b)
  {
    forall b
      ensures Test(GateFlags(f), b) <==> b !in {8, 9, 14, 16, 17} && Test(f, b)
    {
      GateFlagsExactly(f, b);
    }
  }

  /** A valid gate delivers exactly when the frame fits. */
  lemma Delivers(env: Env, k: Kernel, s: State, v: nat, code: seq<Word>, irq: Option<Irq>)
    requires Valid(env) && v < 256 && |code| <= 1
    ensures Deliver(env, k, s, v, code, irq).Running? <==> Fits(env, s, |code|)
    ensures Deliver(env, k, s, v, code, irq).Running? ==> Enters(env, k, Deliver(env, k, s, v, code, irq).k, s, v, code)
  {
    EntryOfGate(env, v);
    var o := Deliver(env, k, s, v, code, irq);
    if o.Running? {
      assert o.k.levels[..|k.levels|] == k.levels;
      EnterPushes(env, s, env.idt[v], code);
      FlagsCleared(s.eflags);
      GateCode(env, v);
    }
  }

  lemma GateCode(env: Env, v: nat)
    requires Valid(env) && v < 256
    ensures env.idt[v].selector == 8
    ensures Offset(env.idt[v]) == if v == 48 && env.syscall then env.syscallIsr else env.trampoline + 16 * v
  {
  }

  // ---- Every event ------------------------------------------------------------------------------------------

  /** An exception or NMI: any vector below 20, with an error code for 8, 10 to 14 and 17 and for no other. */
  lemma FaultTaken(env: Env, k: Kernel, v: nat, code: seq<Word>)
    requires Valid(env)
    ensures Step(env, k, Fault(v, code)).Running? <==>
      v < 20 && |code| == (if v in {8, 10, 11, 12, 13, 14, 17} then 1 else 0) && Fits(env, k.cpu, |code|)
    ensures Step(env, k, Fault(v, code)).Running? ==> Enters(env, k, Step(env, k, Fault(v, code)).k, k.cpu, v, code)
  {
    if v < 20 && |code| <= 1 { Delivers(env, k, k.cpu, v, code, None); }
  }

  lemma IdlePics(k: Kernel)
    requires PicsGood(k) && k.levels == []
    ensures Configured(k.cpu.pics) && k.cpu.pics.master.isr == {} && k.cpu.pics.slave.isr == {}
  {
  }

  lemma IdleWhenOn(env: Env, k: Kernel)
    requires Good(env, k) && Test(k.cpu.eflags, 9)
    ensures k.levels == []
  {
    if k.levels != [] { LastInv(env, k); }
  }

  lemma ExternalIs(env: Env, k: Kernel, q: Irq, pics: Pair, v: nat)
    requires |env.idt| == IDT_NR_DESC && (pics, v) == Acknowledge(k.cpu.pics, q) && v < 256
    ensures Step(env, k, External(q)) ==
      if Test(k.cpu.eflags, 9) && q.Valid() then Deliver(env, k, k.cpu.(pics := pics), v, [], Some(q)) else Stopped(NotEnabled)
  {
  }

  lemma Requested(env: Env, k: Kernel, q: Irq, pics: Pair, v: nat)
    requires Valid(env) && q.Valid() && Test(k.cpu.eflags, 9) && (pics, v) == Acknowledge(k.cpu.pics, q) && v < 256
    ensures var o := Step(env, k, External(q));
      && (o.Running? <==> Fits(env, k.cpu, 0))
      && (o.Running? ==> o.k.cpu.pics == pics && Enters(env, k, o.k, k.cpu.(pics := o.k.cpu.pics), v, []))
  {
    ExternalIs(env, k, q, pics, v);
    Delivers(env, k, k.cpu.(pics := pics), v, [], Some(q));
  }

  lemma IdleAcknowledge(env: Env, k: Kernel, q: Irq) returns (pics: Pair)
    requires Sound(env, k) && Test(k.cpu.eflags, 9) && q.Valid()
    ensures k.levels == [] && Acknowledge(k.cpu.pics, q) == (pics, VectorOfIrq(q)) && VectorOfIrq(q) < 256
    ensures (pics.master.isr, pics.slave.isr) == Served(q)
  {
    IdleWhenOn(env, k);
    IdlePics(k);
    EoiUndoesAcknowledge(k.cpu.pics, q);
    pics := Acknowledge(k.cpu.pics, q).0;
  }

  lemma NotRequested(env: Env, k: Kernel, q: Irq)
    requires |env.idt| == IDT_NR_DESC && !(Test(k.cpu.eflags, 9) && q.Valid())
    ensures !Step(env, k, External(q)).Running?
  {
  }

  /** A request: whenever IF (bit 9) is set, with the vector of its line, which it puts in service. */
  lemma RequestTaken(env: Env, k: Kernel, q: Irq)
    requires Valid(env) && Sound(env, k)
    ensures var o := Step(env, k, External(q));
      && (o.Running? <==> Test(k.cpu.eflags, 9) && q.Valid() && Fits(env, k.cpu, 0))
      && (o.Running? ==>
            && k.levels == [] && Enters(env, k, o.k, k.cpu.(pics := o.k.cpu.pics), VectorOfIrq(q), [])
            && (o.k.cpu.pics.master.isr, o.k.cpu.pics.slave.isr) == Served(q))
  {
    if Test(k.cpu.eflags, 9) && q.Valid() {
      var pics := IdleAcknowledge(env, k, q);
      Requested(env, k, q, pics, VectorOfIrq(q));
    } else {
      NotRequested(env, k, q);
    }
  }

  /** INT n between interruptions: from ring 3 only gate 48 of the system call exercise is open, and any other
      n is a protection fault (13) with the gate's number in its code; from ring 0 every gate is. */
  lemma SoftIntTaken(env: Env, k: Kernel, v: nat, next: Word)
    requires Valid(env) && RingsAgree(k.cpu)
    ensures var o, refused := Step(env, k, SoftInt(v, next)), k.cpu.cs % 4 == 3 && !(v == 48 && env.syscall);
      && (o.Running? <==> k.levels == [] && v < 256 && Fits(env, k.cpu, if refused then 1 else 0))
      && (o.Running? && refused ==> v < 256 && Enters(env, k, o.k, k.cpu, 13, [8 * v + 2]))
      && (o.Running? && !refused ==> Enters(env, k, o.k, k.cpu.(eip := next), v, []))
  {
    if v < 256 {
      EntryOfGate(env, v);
      Delivers(env, k, k.cpu, 13, [8 * v + 2], None);
      Delivers(env, k, k.cpu.(eip := next), v, [], None);
    }
  }

  /** A move of the program, or of the C handler: anything that keeps to its ring; the handler also keeps SS
      and IF, leaves ESP on its part of the stack, and writes only there and to its own memory. Nobody
      moves while the path runs, and nobody but the path touches the controllers. */
  lemma MoveTaken(env: Env, k: Kernel, to: State)
    requires Valid(env) && Sound(env, k)
    ensures Step(env, k, Own(to)).Running? <==>
      && to.pics == k.cpu.pics
      && if k.levels == [] then to.cs % 4 == k.cpu.cs % 4 && to.ss % 4 == k.cpu.ss % 4
         else
           && Handling(k) && to.cs == k.cpu.cs && to.ss == k.cpu.ss && (Test(to.eflags, 9) <==> Test(k.cpu.eflags, 9))
           && env.lo <= to.esp <= LastLevel(k).base
           && forall a :: 0 <= a < SPACE && to.mem[a] != k.cpu.mem[a] ==>
                if env.lo <= a < env.hi then a < LastLevel(k).base else a in env.own
    ensures Step(env, k, Own(to)).Running? ==> Step(env, k, Own(to)).k == Kernel(to, k.levels)
  {
    if k.levels != [] { RetHandling(env, k); }
  }

  lemma RetHandling(env: Env, k: Kernel)
    requires Loaded(env) && Good(env, k) && k.levels != []
    ensures var l := LastLevel(k);
      IsProg(l.prog) && l.pos < |env.code(l.prog)| && env.code(l.prog)[l.pos] == Ret <==> Handling(k)
  {
    var i, x := GoStepIs(env, k);
    RetPlace(env, LastLevel(k), i);
  }

  /** The handler's return: due when ESP is where it was at the call, and never for a vector below 32 but 2. */
  lemma ReturnTaken(env: Env, k: Kernel)
    requires Valid(env) && Sound(env, k) && Handling(k)
    ensures Step(env, k, Go).Running? <==>
      k.cpu.esp == LastLevel(k).base && (LastLevel(k).vector == 2 || LastLevel(k).vector >= 32)
  {
    var i, x := GoStepIs(env, k);
    RetPlace(env, LastLevel(k), i);
    LastProper(env, k);
    ReturnsExactly(env, k);
    if k.cpu.esp == LastLevel(k).base { TopRuns(env, k, i); }
    RetOutcome(env, k, x);
  }

  lemma ReturnsExactly(env: Env, k: Kernel)
    requires Sound(env, k) && Handling(k)
    ensures HandlerReturns(LastLevel(k).prog, k.cpu.mem, LastLevel(k).base + 4) <==> LastLevel(k).vector == 2 || LastLevel(k).vector >= 32
  {
    LastProper(env, k);
    if LastLevel(k).prog.Stub? { HandlerVector(env, k); }
  }

  lemma RetOutcome(env: Env, k: Kernel, x: Option<State>)
    requires k.levels != [] && (k.cpu.esp == LastLevel(k).base ==> x.Some?)
    ensures GoInstr(env, k, Ret, x).Running? <==>
      k.cpu.esp == LastLevel(k).base && HandlerReturns(LastLevel(k).prog, k.cpu.mem, LastLevel(k).base + 4)
  {
  }

  /** IRET, with five words of stack: refused exactly when it would lead to an inner ring; to the same ring it takes
      EIP, CS and EFLAGS off the stack, to an outer one ESP and SS too. */
  lemma IretTaken(env: Env, s: State)
    requires env.lo <= s.esp && s.esp + 20 <= env.hi <= SPACE
    ensures var m, a, cs := s.mem, s.esp, Rd32(s.mem, s.esp + 4) % 0x1_0000;
      && (IretFrom(env, s).Some? <==> cs % 4 >= s.cs % 4)
      && (cs % 4 == s.cs % 4 ==> IretFrom(env, s) == Some(s.(eip := Rd32(m, a), cs := cs, eflags := Rd32(m, a + 8), esp := a + 12)))
      && (cs % 4 > s.cs % 4 ==>
            IretFrom(env, s) == Some(s.(eip := Rd32(m, a), cs := cs, eflags := Rd32(m, a + 8), esp := Rd32(m, a + 12),
                                        ss := Rd32(m, a + 16) % 0x1_0000)))
  {
  }
}
