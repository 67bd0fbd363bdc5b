/** The processor runs the interrupt path on its registers and memory in place: up to the handler, where
    it is in the state the transition system describes, and from the handler back to the interrupted
    program. */
module Execution {
  import opened Memory
  import opened Wrappers
  import opened Descriptors
  import opened Machine
  import opened Stack
  import opened Paths
  import opened Levels
  import opened Steps
  import opened Runs
  import opened Controllers
  import opened Guarantees
  import opened Progress
  import opened Completion
  import opened Processor

  // ---- Following a trace ----------------------------------------------------------------------------------

  /** Instruction n of p. */
  function ExecNth(env: Env, p: Prog, n: nat, s: State): Option<State>
    requires n < |env.code(p)|
  {
    Exec(env, env.code(p)[n], s, env.at(p, n + 1), env.at(p, n + 2))
  }

  /** The states ss come from executing p from position n on. */
  ghost predicate Trace(env: Env, p: Prog, n: nat, ss: seq<State>) {
    && 0 < |ss| <= |env.code(p)| + 1 - n
    && forall j :: 0 <= j < |ss| - 1 ==> ExecNth(env, p, n + j, ss[j]) == Some(ss[j + 1])
  }

  lemma TraceCons(env: Env, p: Prog, n: nat, s: State, ss: seq<State>)
    requires Trace(env, p, n + 1, ss) && n < |env.code(p)| && ExecNth(env, p, n, s) == Some(ss[0])
    ensures Trace(env, p, n, [s] + ss)
  {
    forall j | 0 <= j < |[s] + ss| - 1
      ensures ExecNth(env, p, n + j, ([s] + ss)[j]) == Some(([s] + ss)[j + 1])
    {
      if j > 0 { assert ExecNth(env, p, n + 1 + (j - 1), ss[j - 1]) == Some(ss[j - 1 + 1]); }
    }
  }

  /** The instruction cycle along a trace: every instruction executes, and the processor goes through its
      states. */
  method RunTrace(cpu: Cpu, env: Env, p: Prog, start: nat, end: nat, ghost ss: seq<State>) returns (ok: bool)
    requires cpu.mem.Length == SPACE && Trace(env, p, start, ss) && start + |ss| - 1 == end && cpu.View() == ss[0]
    modifies cpu, cpu.mem
    ensures ok && cpu.View() == ss[|ss| - 1]
  {
    ok := true;
    var n := start;
    while n < end
      invariant ok && start <= n <= end && cpu.View() == ss[n - start]
    {
      assert ExecNth(env, p, start + (n - start), ss[n - start]) == Some(ss[n - start + 1]);
      ok := cpu.Execute(env, env.code(p)[n], env.at(p, n + 1), env.at(p, n + 2));
      n := n + 1;
    }
  }

  /** The same interruption of the same program, with the same interruptions below it. */
  ghost predicate SameStack(k: Kernel, k': Kernel) {
    && k.levels != [] && |k'.levels| == |k.levels| && k'.levels[..|k.levels| - 1] == k.levels[..|k.levels| - 1]
    && SameLevel(LastLevel(k), LastLevel(k'))
  }

  lemma SameStackTrans(k: Kernel, k1: Kernel, k2: Kernel)
    requires SameStack(k, k1) && SameStack(k1, k2)
    ensures SameStack(k, k2)
  {
  }

  // ---- Chains of steps ------------------------------------------------------------------------------------

  /** n steps of the path. */
  function Gos(n: nat): seq<Event> {
    if n == 0 then [] else [Go] + Gos(n - 1)
  }

  /** Each kernel is one step of the path after the one before. */
  ghost predicate GoChain(env: Env, ks: seq<Kernel>) {
    |ks| > 0 && forall j :: 0 <= j < |ks| - 1 ==> GoStep(env, ks[j]) == Running(ks[j + 1])
  }

  lemma ChainCons(env: Env, k: Kernel, ks: seq<Kernel>)
    requires GoChain(env, ks) && GoStep(env, k) == Running(ks[0])
    ensures GoChain(env, [k] + ks)
  {
  }

  lemma GosNext(env: Env, k: Kernel, k1: Kernel, n: nat)
    requires |env.idt| == IDT_NR_DESC && Step(env, k, Go) == Running(k1)
    ensures Run(env, k, Gos(n + 1)) == Run(env, k1, Gos(n))
  {
    RunOne(env, k, Go);
    RunSplit(env, k, [Go], Gos(n));
  }

  lemma {:induction false} ChainIsRun(env: Env, ks: seq<Kernel>)
    requires |env.idt| == IDT_NR_DESC && GoChain(env, ks)
    ensures Run(env, ks[0], Gos(|ks| - 1)) == Running(ks[|ks| - 1])
    decreases |ks|
  {
    if |ks| > 1 {
      GosNext(env, ks[0], ks[1], |ks| - 2);
      ChainIsRun(env, ks[1..]);
    }
  }

  /** The interruption is in progress in all but perhaps the last kernel of the chain. */
  ghost predicate Lasting(ks: seq<Kernel>) {
    |ks| > 0 && ks[0].levels != [] && forall j :: 0 <= j < |ks| - 1 ==> |ks[j].levels| == |ks[0].levels|
  }

  /** Kernel k1 is k with one instruction of the path executed. */
  ghost predicate GoesOn(env: Env, k: Kernel, k1: Kernel) {
    && k.levels != [] && LastLevel(k).pos < |env.code(LastLevel(k).prog)|
    && ExecNth(env, LastLevel(k).prog, LastLevel(k).pos, k.cpu) == Some(k1.cpu)
    && (if env.code(LastLevel(k).prog)[LastLevel(k).pos] == Iret then |k1.levels| == |k.levels| - 1
        else SameStack(k, k1) && LastLevel(k1).pos == LastLevel(k).pos + 1)
  }

  lemma GoneOn(env: Env, k: Kernel, k1: Kernel)
    requires GoStep(env, k) == Running(k1)
    ensures GoesOn(env, k, k1)
  {
    var l := LastLevel(k);
    var i := env.code(l.prog)[l.pos];
    var x := ExecAt(env, l, i, k.cpu);
    assert GoStep(env, k) == GoInstr(env, k, i, x);
    RunningIs(env, k, i, x);
    if i != Iret { AfterShape(k, i, x.value); }
  }

  ghost predicate ChainOn(env: Env, ks: seq<Kernel>) {
    |ks| > 0 && forall j :: 0 <= j < |ks| - 1 ==> GoesOn(env, ks[j], ks[j + 1])
  }

  lemma ChainGoesOn(env: Env, ks: seq<Kernel>)
    requires GoChain(env, ks)
    ensures ChainOn(env, ks)
  {
    forall j | 0 <= j < |ks| - 1
      ensures GoesOn(env, ks[j], ks[j + 1])
    {
      GoneOn(env, ks[j], ks[j + 1]);
    }
  }

  /** Where a chain that started at position n has come to. */
  ghost predicate CameTo(env: Env, ks: seq<Kernel>, p: Prog, n: nat) {
    && |ks| > 0 && ks[0].levels != []
    && if |ks[|ks| - 1].levels| == |ks[0].levels| then SameStack(ks[0], ks[|ks| - 1]) && LastLevel(ks[|ks| - 1]).pos == n + |ks| - 1
       else |ks| > 1 && n + |ks| - 2 < |env.code(p)| && env.code(p)[n + |ks| - 2] == Iret
  }

  lemma CameToCons(env: Env, ks: seq<Kernel>, p: Prog, n: nat)
    requires |ks| > 1 && GoesOn(env, ks[0], ks[1]) && |ks[1].levels| == |ks[0].levels|
    requires CameTo(env, ks[1..], p, n + 1)
    ensures CameTo(env, ks, p, n)
  {
    if |ks[|ks| - 1].levels| == |ks[0].levels| { SameStackTrans(ks[0], ks[1], ks[|ks| - 1]); }
  }

  /** A chain is a trace of the processor. */
  lemma {:induction false} ChainTrace(env: Env, ks: seq<Kernel>, p: Prog, n: nat) returns (ss: seq<State>)
    requires ChainOn(env, ks) && Lasting(ks) && LastLevel(ks[0]).prog == p && n == LastLevel(ks[0]).pos <= |env.code(p)|
    ensures Trace(env, p, n, ss) && |ss| == |ks| && ss[0] == ks[0].cpu && ss[|ss| - 1] == ks[|ks| - 1].cpu
    ensures CameTo(env, ks, p, n)
    decreases |ks|
  {
    if |ks| == 1 {
      ss := [ks[0].cpu];
    } else {
      assert GoesOn(env, ks[0], ks[0 + 1]);
      if |ks[1].levels| != |ks[0].levels| {
        ss := [ks[1].cpu];
      } else {
        ss := ChainTrace(env, ks[1..], p, n + 1);
        CameToCons(env, ks, p, n);
      }
      TraceCons(env, p, n, ks[0].cpu, ss);
      ss := [ks[0].cpu] + ss;
    }
  }

  lemma EpisodeBegins(env: Env, k: Kernel, es: seq<Event>, k2: Kernel, n: nat) returns (k1: Kernel)
    requires |env.idt| == IDT_NR_DESC && OnlyGo(es) && Episode(env, k, es, k2, n) && |k.levels| > n
    ensures es != [] && GoStep(env, k) == Running(k1) && Episode(env, k1, es[1..], k2, n) && OnlyGo(es[1..])
  {
    assert es[0] == Go;
    k1 := GoStep(env, k).k;
  }

  /** An episode of the path alone is a chain. */
  lemma {:induction false} EpisodeChain(env: Env, k: Kernel, es: seq<Event>, k2: Kernel, n: nat) returns (ks: seq<Kernel>)
    requires |env.idt| == IDT_NR_DESC && OnlyGo(es) && Episode(env, k, es, k2, n) && |k.levels| == n + 1
    ensures GoChain(env, ks) && Lasting(ks) && ks[0] == k && ks[|ks| - 1] == k2 && |k2.levels| == n
    decreases |es|
  {
    var k1 := EpisodeBegins(env, k, es, k2, n);
    GoneOn(env, k, k1);
    if |k1.levels| > n {
      ks := EpisodeChain(env, k1, es[1..], k2, n);
    } else {
      EpisodeOver(env, k1, es[1..], k2, n);
      ks := [k1];
    }
    ChainCons(env, k, ks);
    ks := [k] + ks;
  }

  // ---- To the handler -----------------------------------------------------------------------------------

  /** On the way to the handler, or there, with stack for the rest of it. */
  ghost predicate Underway(env: Env, k: Kernel) {
    && Sound(env, k) && k.levels != [] && IsProg(LastLevel(k).prog) && !BareIret(LastLevel(k))
    && LastLevel(k).pos <= RetIdx(LastLevel(k).prog) && RoomAhead(env, LastLevel(k), k.cpu)
  }

  lemma PlaceBefore(env: Env, l: Level, i: Instr, e: Shadow, e': Shadow)
    requires IsProg(l.prog) && l.pos < RetIdx(l.prog) && !BareIret(l) && Position(env, l, i, e, e')
    ensures i != Ret && i != Iret
  {
  }

  lemma ForwardInstr(env: Env, k: Kernel) returns (i: Instr, x: Option<State>)
    requires Valid(env) && Underway(env, k) && LastLevel(k).pos < RetIdx(LastLevel(k).prog)
    ensures LastLevel(k).pos < |env.code(LastLevel(k).prog)| && i == env.code(LastLevel(k).prog)[LastLevel(k).pos]
    ensures i != Ret && i != Iret && Here(env, LastLevel(k), i)
    ensures x == ExecAt(env, LastLevel(k), i, k.cpu) && GoStep(env, k) == GoInstr(env, k, i, x)
  {
    i, x := GoStepIs(env, k);
    PlaceBefore(env, LastLevel(k), i, Expected(env, LastLevel(k)), Expected(env, LastLevel(k).(pos := LastLevel(k).pos + 1)));
  }

  lemma PlainOutcome(env: Env, k: Kernel, i: Instr, t: State)
    requires k.levels != [] && i != Ret && GoInstr(env, k, i, Some(t)) != Stopped(Wild)
    ensures GoInstr(env, k, i, Some(t)) == Running(AfterInstr(k, i, t))
  {
  }

  /** The next instruction on the way to the handler executes. */
  lemma ForwardStep(env: Env, k: Kernel) returns (i: Instr, t: State)
    requires Valid(env) && Underway(env, k) && LastLevel(k).pos < RetIdx(LastLevel(k).prog)
    ensures LastLevel(k).pos < |env.code(LastLevel(k).prog)| && i == env.code(LastLevel(k).prog)[LastLevel(k).pos]
    ensures i != Iret && Here(env, LastLevel(k), i) && ExecAt(env, LastLevel(k), i, k.cpu) == Some(t)
    ensures GoStep(env, k) == Running(AfterInstr(k, i, t))
  {
    var x;
    i, x := ForwardInstr(env, k);
    TopRuns(env, k, i);
    t := x.value;
    NotWild(env, k, i, x);
    PlainOutcome(env, k, i, t);
  }

  lemma ForwardKept(env: Env, k: Kernel, i: Instr, t: State)
    requires Valid(env) && Underway(env, k) && LastLevel(k).pos < RetIdx(LastLevel(k).prog)
    requires i != Iret && Here(env, LastLevel(k), i) && GoStep(env, k) == Running(AfterInstr(k, i, t))
    ensures var k1 := AfterInstr(k, i, t);
      Underway(env, k1) && SameStack(k, k1) && LastLevel(k1).pos == LastLevel(k).pos + 1
  {
    StepSound(env, k, Go);
    AfterShape(k, i, t);
    RoomAfter(env, k, i, t);
  }

  lemma RoomAfter(env: Env, k: Kernel, i: Instr, t: State)
    requires Underway(env, k) && LastLevel(k).pos < RetIdx(LastLevel(k).prog)
    requires Here(env, LastLevel(k), i) && i != Iret && Sound(env, AfterInstr(k, i, t))
    ensures RoomAhead(env, LastLevel(AfterInstr(k, i, t)), t)
  {
    AfterShape(k, i, t);
    if LastLevel(k).pos + 1 < RetIdx(LastLevel(k).prog) {
      LastInv(env, AfterInstr(k, i, t));
      RoomKept(env, k, i, t);
    }
  }

  /** One step on. */
  lemma WayOn(env: Env, k: Kernel) returns (k1: Kernel)
    requires Valid(env) && Underway(env, k) && LastLevel(k).pos < RetIdx(LastLevel(k).prog)
    ensures GoStep(env, k) == Running(k1) && Underway(env, k1) && |k1.levels| == |k.levels|
    ensures LastLevel(k1).prog == LastLevel(k).prog && LastLevel(k1).pos == LastLevel(k).pos + 1
  {
    var i, t := ForwardStep(env, k);
    k1 := AfterInstr(k, i, t);
    ForwardKept(env, k, i, t);
  }

  /** A chain of d steps that leaves as many interruptions in progress as before. */
  ghost predicate Flat(env: Env, k: Kernel, ks: seq<Kernel>, d: nat) {
    GoChain(env, ks) && |ks| == d + 1 && ks[0] == k && forall j :: 0 <= j <= d ==> |ks[j].levels| == |k.levels|
  }

  lemma FlatCons(env: Env, k: Kernel, k1: Kernel, ks: seq<Kernel>, d: nat)
    requires Flat(env, k1, ks, d) && GoStep(env, k) == Running(k1) && |k1.levels| == |k.levels|
    ensures Flat(env, k, [k] + ks, d + 1) && ([k] + ks)[d + 1] == ks[d]
  {
    ChainCons(env, k, ks);
  }

  lemma {:induction false} ChainToHandler(env: Env, k: Kernel, d: nat) returns (ks: seq<Kernel>)
    requires Valid(env) && Underway(env, k) && LastLevel(k).pos + d == RetIdx(LastLevel(k).prog)
    ensures Flat(env, k, ks, d) && Underway(env, ks[d])
    ensures d > 0 ==> Underway(env, ks[d - 1]) && LastLevel(ks[d - 1]).pos + 1 == RetIdx(LastLevel(ks[d - 1]).prog)
    decreases d
  {
    if d == 0 {
      ks := [k];
    } else {
      var k1 := WayOn(env, k);
      ks := ChainToHandler(env, k1, d - 1);
      FlatCons(env, k, k1, ks, d - 1);
      ks := [k] + ks;
    }
  }

  /** From the first instruction of the path to the handler, in place: every instruction executes, and the
      processor ends where that many steps of the transition system end, in the handler of the
      interruption, nothing below it having moved. */
  method EnterHandler(cpu: Cpu, env: Env, p: Prog, ghost k: Kernel) returns (ok: bool, ghost kh: Kernel)
    requires Valid(env) && Underway(env, k) && LastLevel(k).prog == p && LastLevel(k).pos == 0
    requires cpu.mem.Length == SPACE && cpu.View() == k.cpu
    modifies cpu, cpu.mem
    ensures ok && cpu.View() == kh.cpu && Run(env, k, Gos(RetIdx(p))) == Running(kh)
    ensures Sound(env, kh) && Handling(kh) && SameStack(k, kh)
  {
    ghost var ks := ChainToHandler(env, k, RetIdx(p));
    ChainGoesOn(env, ks);
    ghost var ss := ChainTrace(env, ks, p, 0);
    ChainIsRun(env, ks);
    kh := ks[|ks| - 1];
    ok := RunTrace(cpu, env, p, 0, RetIdx(p), ss);
  }

  // ---- Back to the interrupted program ------------------------------------------------------------------

  lemma IretAtEnd(env: Env, p: Prog, n: nat)
    requires Loaded(env) && IsProg(p) && n < |env.code(p)| && env.code(p)[n] == Iret
    ensures n + 1 == |env.code(p)|
  {
    InMemory(env, p);
  }

  lemma Returns(env: Env, k: Kernel)
    requires Handling(k) && Returning(LastLevel(k)) && k.cpu.esp == LastLevel(k).base
    ensures CanFinish(env, k) && !Busy(k)
  {
  }

  lemma HandlerPosition(env: Env, k: Kernel)
    requires Valid(env) && Handling(k)
    ensures LastLevel(k).pos == RetIdx(LastLevel(k).prog) <= |env.code(LastLevel(k).prog)|
  {
    InMemory(env, LastLevel(k).prog);
  }

  /** The steps from the handler's return to the end of the interruption. */
  lemma LeaveChain(env: Env, k: Kernel) returns (ks: seq<Kernel>)
    requires Valid(env) && Sound(env, k) && CanFinish(env, k) && !Busy(k)
    ensures GoChain(env, ks) && Lasting(ks) && ks[0] == k && |ks[|ks| - 1].levels| == |k.levels| - 1
    ensures Transparent(env, LastLevel(k).saved, ks[|ks| - 1].cpu)
  {
    var es, k2 := Completes(env, k);
    EpisodeRestores(env, k, es, k2, |k.levels| - 1);
    ks := EpisodeChain(env, k, es, k2, |k.levels| - 1);
  }

  /** The states of the processor that go with them. */
  lemma LeaveTrace(env: Env, ks: seq<Kernel>, p: Prog, n: nat) returns (ss: seq<State>)
    requires Loaded(env) && GoChain(env, ks) && Lasting(ks) && |ks[|ks| - 1].levels| < |ks[0].levels|
    requires IsProg(p) && LastLevel(ks[0]).prog == p && n == LastLevel(ks[0]).pos <= |env.code(p)|
    ensures Trace(env, p, n, ss) && |ss| == |ks| && ss[0] == ks[0].cpu && ss[|ss| - 1] == ks[|ks| - 1].cpu
    ensures n + |ss| - 1 == |env.code(p)|
  {
    ChainGoesOn(env, ks);
    ss := ChainTrace(env, ks, p, n);
    IretAtEnd(env, p, n + |ks| - 2);
  }

  /** From the return of the handler to the interrupted program, in place: every instruction executes,
      and the processor is as the interruption found it. */
  method LeaveHandler(cpu: Cpu, env: Env, p: Prog, ghost k: Kernel) returns (ok: bool)
    requires Valid(env) && Sound(env, k) && Handling(k) && LastLevel(k).prog == p
    requires Returning(LastLevel(k)) && k.cpu.esp == LastLevel(k).base
    requires cpu.mem.Length == SPACE && cpu.View() == k.cpu
    modifies cpu, cpu.mem
    ensures ok && Transparent(env, LastLevel(k).saved, cpu.View())
  {
    Returns(env, k);
    HandlerPosition(env, k);
    ghost var ks := LeaveChain(env, k);
    ghost var ss := LeaveTrace(env, ks, p, RetIdx(p));
    ok := RunTrace(cpu, env, p, RetIdx(p), |env.code(p)|, ss);
  }
}
