/** Whole runs: nested interruptions, rings, and what a completed interruption leaves behind. */
module Runs {
  import opened Memory
  import opened Wrappers
  import opened Pic
  import opened Machine
  import opened Stack
  import opened Paths
  import opened Levels
  import opened Steps

  /** The state of the j-th level: that in which the next one interrupted it, or the CPU's. */
  function StateOf(k: Kernel, j: nat): State
    requires j < |k.levels|
  {
    if j + 1 < |k.levels| then k.levels[j + 1].saved else k.cpu
  }

  predicate RingsAgree(s: State) {
    (Cpl(s) == 0 || Cpl(s) == 3) && s.ss % 4 == s.cs % 4
  }

  /** Every level satisfies p in its own state. */
  ghost predicate EachLevel(k: Kernel, p: (Level, State) -> bool) {
    forall j :: 0 <= j < |k.levels| ==> p(k.levels[j], StateOf(k, j))
  }

  ghost function InvOf(env: Env): (Level, State) -> bool {
    (l: Level, s: State) => Inv(env, l, s)
  }

  ghost predicate Good(env: Env, k: Kernel) {
    RingsAgree(k.cpu) && EachLevel(k, InvOf(env))
  }

  function LastLevel(k: Kernel): Level
    requires k.levels != []
  {
    k.levels[|k.levels| - 1]
  }

  lemma LastSatisfies(k: Kernel, p: (Level, State) -> bool)
    requires EachLevel(k, p) && k.levels != []
    ensures p(LastLevel(k), k.cpu)
  {
    assert StateOf(k, |k.levels| - 1) == k.cpu;
  }

  lemma LastInv(env: Env, k: Kernel)
    requires Good(env, k) && k.levels != []
    ensures Inv(env, LastLevel(k), k.cpu)
  {
    LastSatisfies(k, InvOf(env));
  }

  /** The handler of the topmost interruption is running, at any point of its execution. */
  ghost predicate Handling(k: Kernel) {
    k.levels != [] && IsProg(LastLevel(k).prog) && !BareIret(LastLevel(k)) && LastLevel(k).pos == RetIdx(LastLevel(k).prog)
  }

  lemma LastProper(env: Env, k: Kernel)
    requires Good(env, k) && k.levels != []
    ensures Proper(env, LastLevel(k))
  {
    LastInv(env, k);
  }

  /** Moving only the topmost level and the CPU. */
  lemma EachReplaced(k: Kernel, p: (Level, State) -> bool, l: Level, s: State)
    requires EachLevel(k, p) && k.levels != [] && l.saved == LastLevel(k).saved && p(l, s)
    ensures EachLevel(Kernel(s, k.levels[..|k.levels| - 1] + [l]), p)
  {
    var k' := Kernel(s, k.levels[..|k.levels| - 1] + [l]);
    forall j | 0 <= j < |k'.levels|
      ensures p(k'.levels[j], StateOf(k', j))
    {
      if j + 1 < |k.levels| { assert StateOf(k', j) == StateOf(k, j); }
    }
  }

  /** A level l on top, provided the one below bears being interrupted in state l.saved. */
  lemma EachPushed(k: Kernel, p: (Level, State) -> bool, l: Level, t: State)
    requires EachLevel(k, p) && p(l, t) && (k.levels != [] ==> p(LastLevel(k), l.saved))
    ensures EachLevel(Kernel(t, k.levels + [l]), p)
  {
    var k' := Kernel(t, k.levels + [l]);
    forall j | 0 <= j < |k'.levels|
      ensures p(k'.levels[j], StateOf(k', j))
    {
      if j + 1 < |k.levels| { assert StateOf(k', j) == StateOf(k, j); }
    }
  }

  lemma EachPopped(k: Kernel, p: (Level, State) -> bool, t: State)
    requires EachLevel(k, p) && k.levels != []
    requires |k.levels| > 1 && p(k.levels[|k.levels| - 2], LastLevel(k).saved) ==> p(k.levels[|k.levels| - 2], t)
    ensures EachLevel(Kernel(t, k.levels[..|k.levels| - 1]), p)
  {
    var n := |k.levels| - 1;
    var k' := Kernel(t, k.levels[..n]);
    forall j | 0 <= j < |k'.levels|
      ensures p(k'.levels[j], StateOf(k', j))
    {
      if j + 1 < n {
        assert StateOf(k', j) == StateOf(k, j);
      } else {
        assert StateOf(k, j) == LastLevel(k).saved;
      }
    }
  }

  lemma GoodReplace(env: Env, k: Kernel, l: Level, s: State)
    requires Good(env, k) && k.levels != [] && l.saved == LastLevel(k).saved && Inv(env, l, s)
    ensures Good(env, Kernel(s, k.levels[..|k.levels| - 1] + [l]))
  {
    EachReplaced(k, InvOf(env), l, s);
  }

  lemma GoodPush(env: Env, k: Kernel, l: Level, t: State)
    requires Good(env, k) && Inv(env, l, t)
    requires k.levels != [] ==> Transparent(env, k.cpu, l.saved)
    ensures Good(env, Kernel(t, k.levels + [l]))
  {
    if k.levels != [] {
      LastInv(env, k);
      InvStable(env, LastLevel(k), k.cpu, l.saved);
    }
    EachPushed(k, InvOf(env), l, t);
  }

  lemma GoodPop(env: Env, k: Kernel, t: State)
    requires Good(env, k) && k.levels != [] && Transparent(env, LastLevel(k).saved, t)
    ensures Good(env, Kernel(t, k.levels[..|k.levels| - 1]))
  {
    LastInv(env, k);
    var n := |k.levels| - 1;
    if n > 0 && Inv(env, k.levels[n - 1], LastLevel(k).saved) {
      InvStable(env, k.levels[n - 1], LastLevel(k).saved, t);
    }
    EachPopped(k, InvOf(env), t);
    assert RingsAgree(LastLevel(k).saved);
  }

  // ---- One step ---------------------------------------------------------------------------------------

  /** The same interruption, perhaps further on. */
  predicate SameLevel(l: Level, l': Level) {
    l'.saved == l.saved && l'.code == l.code && l'.vector == l.vector && l'.irq == l.irq && l'.prog == l.prog
  }

  /** How one step changes the interruptions in progress. */
  ghost predicate Evolves(env: Env, k: Kernel, k': Kernel) {
    var n := |k.levels|;
    || (k'.levels == k.levels)
    || (n > 0 && |k'.levels| == n && k'.levels[..n - 1] == k.levels[..n - 1] && SameLevel(LastLevel(k), LastLevel(k')))
    || (|k'.levels| == n + 1 && k'.levels[..n] == k.levels)
    || (n > 0 && k'.levels == k.levels[..n - 1] && Transparent(env, LastLevel(k).saved, k'.cpu))
  }

  lemma HandlerMove(env: Env, k: Kernel, to: State)
    requires Valid(env) && Good(env, k) && k.levels != [] && OwnMove(env, k, to)
    ensures Inv(env, LastLevel(k), to)
  {
    var l := LastLevel(k);
    LastInv(env, k);
    Locate(env, l);
    assert l.pos == RetIdx(l.prog);
    KeptTrans(env, l.saved.mem, k.cpu.mem, to.mem, LevelTop(env, l), l.base);
    ContextFits(env, l);
    KeptHolds(env, k.cpu.mem, to.mem, l.base, l.base, [env.at(l.prog, l.pos + 1)] + ContextOf(env, l));
  }

  lemma Returned(env: Env, k: Kernel, t: State)
    requires Valid(env) && Good(env, k) && k.levels != [] && Here(env, LastLevel(k), Iret)
    requires ExecAt(env, LastLevel(k), Iret, k.cpu) == Some(t)
    ensures Good(env, AfterInstr(k, Iret, t)) && Evolves(env, k, AfterInstr(k, Iret, t))
  {
    IretIs(env, k.cpu, env.at(LastLevel(k).prog, LastLevel(k).pos + 1), env.at(LastLevel(k).prog, LastLevel(k).pos + 2));
    LastInv(env, k);
    StepReturns(env, LastLevel(k), k.cpu, t);
    GoodPop(env, k, t);
  }

  lemma Continued(env: Env, k: Kernel, i: Instr, t: State)
    requires Good(env, k) && k.levels != [] && i != Iret && Inv(env, NextLevel(LastLevel(k), i, t), t)
    ensures Good(env, AfterInstr(k, i, t)) && Evolves(env, k, AfterInstr(k, i, t))
  {
    GoodReplace(env, k, NextLevel(LastLevel(k), i, t), t);
  }

  /** Control is where the position says, except inside the handler. */
  lemma OnPath(env: Env, l: Level, s: State, i: Instr)
    requires Inv(env, l, s) && Here(env, l, i) && i != Ret
    ensures s.eip == env.at(l.prog, l.pos)
  {
  }

  lemma Keeps(env: Env, k: Kernel, i: Instr, t: State)
    requires Valid(env) && Good(env, k) && k.levels != [] && Here(env, LastLevel(k), i) && i != Iret
    requires i == Ret ==> k.cpu.esp == LastLevel(k).base && HandlerReturns(LastLevel(k).prog, k.cpu.mem, LastLevel(k).base + 4)
    requires ExecAt(env, LastLevel(k), i, k.cpu) == Some(t)
    ensures Inv(env, NextLevel(LastLevel(k), i, t), t)
  {
    LastInv(env, k);
    StepKeeps(env, LastLevel(k), k.cpu, t, i);
  }

  lemma InstrGood(env: Env, k: Kernel, i: Instr, t: State)
    requires Valid(env) && Good(env, k) && k.levels != [] && Here(env, LastLevel(k), i)
    requires i == Ret ==> k.cpu.esp == LastLevel(k).base && HandlerReturns(LastLevel(k).prog, k.cpu.mem, LastLevel(k).base + 4)
    requires ExecAt(env, LastLevel(k), i, k.cpu) == Some(t)
    ensures Good(env, AfterInstr(k, i, t)) && Evolves(env, k, AfterInstr(k, i, t))
  {
    if i == Iret {
      Returned(env, k, t);
    } else {
      Keeps(env, k, i, t);
      Continued(env, k, i, t);
    }
  }

  lemma NotWild(env: Env, k: Kernel, i: Instr, x: Option<State>)
    requires Good(env, k) && k.levels != [] && Here(env, LastLevel(k), i)
    ensures GoInstr(env, k, i, x) != Stopped(Wild)
  {
    LastInv(env, k);
    if i != Ret { OnPath(env, LastLevel(k), k.cpu, i); }
  }

  /** The step of a kernel whose topmost interruption is at instruction i. */
  lemma GoStepIs(env: Env, k: Kernel) returns (i: Instr, x: Option<State>)
    requires Loaded(env) && Good(env, k) && k.levels != []
    ensures IsProg(LastLevel(k).prog) && LastLevel(k).pos < |env.code(LastLevel(k).prog)| == CodeLength(LastLevel(k).prog)
    ensures i == env.code(LastLevel(k).prog)[LastLevel(k).pos] && Here(env, LastLevel(k), i)
    ensures x == ExecAt(env, LastLevel(k), i, k.cpu) && GoStep(env, k) == GoInstr(env, k, i, x)
  {
    LastProper(env, k);
    Locate(env, LastLevel(k));
    i := env.code(LastLevel(k).prog)[LastLevel(k).pos];
    x := ExecAt(env, LastLevel(k), i, k.cpu);
  }

  lemma GoStepGood(env: Env, k: Kernel)
    requires Valid(env) && Good(env, k)
    ensures GoStep(env, k) != Stopped(Wild)
    ensures GoStep(env, k).Running? ==> Good(env, GoStep(env, k).k) && Evolves(env, k, GoStep(env, k).k)
  {
    if k.levels != [] {
      var i, x := GoStepIs(env, k);
      NotWild(env, k, i, x);
      if GoInstr(env, k, i, x).Running? { InstrGood(env, k, i, x.value); }
    }
  }

  lemma DeliverGood(env: Env, k: Kernel, s: State, v: nat, code: seq<Word>, irq: Option<Irq>)
    requires Valid(env) && Good(env, k) && v < 256 && RingsAgree(s)
    requires k.levels != [] ==> Transparent(env, k.cpu, s)
    requires |code| <= (if HasErrorCode(v) then 1 else 0)
    ensures Deliver(env, k, s, v, code, irq) != Stopped(Wild)
    ensures var o := Deliver(env, k, s, v, code, irq);
      o.Running? ==> Good(env, o.k) && Evolves(env, k, o.k)
  {
    EntryOfGate(env, v);
    var o := Deliver(env, k, s, v, code, irq);
    if o.Running? {
      DeliverInv(env, k, s, v, code, irq);
      GoodPush(env, k, LastLevel(o.k), o.k.cpu);
      assert o.k.levels == k.levels + [LastLevel(o.k)];
    }
  }
}
