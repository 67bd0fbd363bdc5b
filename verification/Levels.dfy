/** The invariant of one interruption, from delivery to its IRET. */
module Levels {
  import opened Memory
  import opened Wrappers
  import opened Pic
  import opened Descriptors
  import opened Machine
  import opened Stack
  import opened Paths

  function FrameOf(l: Level): seq<Word> { Frame(l.saved, l.code) }

  function LevelTop(env: Env, l: Level): Word { FrameTop(env, l.saved) }

  function ContextOf(env: Env, l: Level): seq<Word>
    requires IsProg(l.prog)
  {
    Context(l.prog, l.saved.r, FrameOf(l), LevelTop(env, l))
  }

  /** Address of the context, once saved. */
  function ContextAt(env: Env, l: Level): int
    requires IsProg(l.prog)
  {
    LevelTop(env, l) - 4 * |ContextOf(env, l)|
  }

  predicate BareIret(l: Level) { l.prog.Stub? && Reserved(l.prog.v) }

  /** The program belongs to the vector; hardware pushed a code exactly where the stub expects one,
      except that INT n in ring 0 never pushes any. */
  ghost predicate Proper(env: Env, l: Level) {
    && IsProg(l.prog) && l.vector < 256
    && l.prog == (if l.vector == 48 && env.syscall then Syscall else Stub(l.vector))
    && |l.code| <= (if HasErrorCode(l.vector) then 1 else 0)
    && l.pos < CodeLength(l.prog)
    && (Cpl(l.saved) == 0 || Cpl(l.saved) == 3) && l.saved.ss % 4 == l.saved.cs % 4
  }

  /** Vectors whose handler comes back: the NMI, everything from 32 on. */
  predicate Returning(l: Level) { l.vector == 2 || l.vector >= 32 }

  /** What the words on the stack should be before the call. */
  function Expected(env: Env, l: Level): Shadow {
    var start := Shadow(l.saved.r, FrameOf(l));
    if l.pos <= |env.code(l.prog)| then ShadowAt(env.code(l.prog), start, LevelTop(env, l), l.pos) else start
  }

  ghost predicate InHandler(env: Env, l: Level, s: State)
    requires Proper(env, l)
  {
    && l.base == ContextAt(env, l) - 4 && env.lo <= s.esp <= l.base
    && Holds(s.mem, l.base, [env.at(l.prog, l.pos + 1)] + ContextOf(env, l))
  }

  /** Words of the context already taken back after the handler. */
  function Popped(l: Level): nat
    requires IsProg(l.prog)
  {
    if l.pos == RetIdx(l.prog) + 1 then 0
    else if l.prog.Stub? && l.pos == RetIdx(l.prog) + 2 then 8
    else 8 + |Header(l.prog)|
  }

  ghost predicate AfterHandler(env: Env, l: Level, s: State)
    requires Proper(env, l)
  {
    var c := ContextOf(env, l);
    && Returning(l) && s.esp == ContextAt(env, l) + 4 * Popped(l)
    && Popped(l) <= |c| && Holds(s.mem, s.esp, c[Popped(l)..])
    && s.eip == env.at(l.prog, l.pos)
    && (Popped(l) > 0 ==> s.r == l.saved.r)
  }

  /** What holds wherever the interruption is. */
  ghost predicate Common(env: Env, l: Level, s: State) {
    && Proper(env, l)
    && Cpl(s) == 0 && s.ss % 4 == 0 && !IfOn(s.eflags)
    && (Cpl(l.saved) == 0 ==> s.ss == l.saved.ss)
    && env.lo <= s.esp && LevelTop(env, l) <= env.hi <= SPACE && s.esp <= LevelTop(env, l)
    && Kept(env, l.saved.mem, s.mem, LevelTop(env, l))
    && (l.pos >= RetIdx(l.prog) ==> env.lo <= ContextAt(env, l) - 4)
  }

  ghost predicate Inv(env: Env, l: Level, s: State) {
    && Common(env, l, s)
    && (if l.pos < RetIdx(l.prog) then Match(env, s, Expected(env, l), LevelTop(env, l)) && s.eip == env.at(l.prog, l.pos)
        else if l.pos == RetIdx(l.prog) then InHandler(env, l, s)
        else AfterHandler(env, l, s))
  }

  /** Same program-visible state: what an interruption owes to the code it interrupts. */
  ghost predicate Transparent(env: Env, s: State, t: State) {
    && t.r == s.r && t.esp == s.esp && t.eip == s.eip && t.cs == s.cs && t.ss == s.ss && t.eflags == s.eflags
    && Kept(env, s.mem, t.mem, FrameTop(env, s))
  }

  /** A suspended interruption does not notice a transparent one on top of it. */
  lemma InvStable(env: Env, l: Level, s: State, t: State)
    requires Inv(env, l, s) && Transparent(env, s, t)
    ensures Inv(env, l, t)
  {
    var top := LevelTop(env, l);
    assert FrameTop(env, s) == s.esp;
    if l.pos < RetIdx(l.prog) {
      KeptHolds(env, s.mem, t.mem, s.esp, s.esp, Expected(env, l).ws);
    } else if l.pos == RetIdx(l.prog) {
      KeptHolds(env, s.mem, t.mem, s.esp, l.base, [env.at(l.prog, l.pos + 1)] + ContextOf(env, l));
    } else {
      KeptHolds(env, s.mem, t.mem, s.esp, s.esp, ContextOf(env, l)[Popped(l)..]);
    }
  }

  // ---- Delivery ---------------------------------------------------------------------------------------

  lemma EntryOfGate(env: Env, v: nat)
    requires Valid(env) && v < IDT_NR_DESC
    ensures var g := env.idt[v];
      && g.p == 1 && g.kind == INTR_GATE_32 && g.selector == KERNEL_CODE
      && Entry(env, Offset(g)) == (if v == 48 && env.syscall then Syscall else Stub(v))
      && env.at(Entry(env, Offset(g)), 0) == Offset(g)
      && g.dpl == (if v == 48 && env.syscall then 3 else 0)
  {
  }

  /** A fresh level satisfies its invariant. */
  lemma DeliverInv(env: Env, k: Kernel, s: State, v: nat, code: seq<Word>, irq: Option<Irq>)
    requires Valid(env) && v < 256 && Deliver(env, k, s, v, code, irq).Running?
    requires (Cpl(s) == 0 || Cpl(s) == 3) && s.ss % 4 == s.cs % 4
    requires |code| <= (if HasErrorCode(v) then 1 else 0)
    ensures var k' := Deliver(env, k, s, v, code, irq).k;
      && |k'.levels| == |k.levels| + 1 && k'.levels[..|k.levels|] == k.levels
      && (var l := k'.levels[|k.levels|];
          && l.saved == s && l.vector == v && l.irq == irq && l.pos == 0 && Inv(env, l, k'.cpu)
          && k'.cpu.cs == KERNEL_CODE && k'.cpu.pics == s.pics
          && k'.cpu.esp == FrameTop(env, s) - 4 * |Frame(s, code)|
          && (Cpl(s) == 3 ==> k'.cpu.ss == env.ss0))
  {
    EntryOfGate(env, v);
    var k' := Deliver(env, k, s, v, code, irq).k;
    var l := k'.levels[|k.levels|];
    var ws := Frame(s, code);
    PutHolds(s.mem, FrameTop(env, s) - 4 * |ws|, ws);
    assert Expected(env, l) == Shadow(s.r, ws);
    assert k'.levels[..|k.levels|] == k.levels;
  }
}
