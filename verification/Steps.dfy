/** Every step of the interrupt path keeps the invariant of the interruption it belongs to. */
module Steps {
  import opened Memory
  import opened Wrappers
  import opened Machine
  import opened Stack
  import opened Paths
  import opened Levels

  lemma KeptTrans(env: Env, m0: Space, m1: Space, m2: Space, top: int, esp: int)
    requires Kept(env, m0, m1, top) && Kept(env, m1, m2, esp) && esp <= top
    ensures Kept(env, m0, m2, top)
  {
  }

  /** The saved vector is where intr_hdlr looks for it, whatever the CPU pushed. */
  lemma VectorSlot(env: Env, l: Level, m: Space)
    requires Proper(env, l) && l.prog.Stub? && !BareIret(l)
    requires 0 <= ContextAt(env, l) && LevelTop(env, l) <= SPACE
    requires Holds(m, ContextAt(env, l), ContextOf(env, l))
    ensures ContextAt(env, l) <= SPACE - 36 && SavedVector(m, ContextAt(env, l)) == l.vector
    ensures HandlerReturns(l.prog, m, ContextAt(env, l)) <==> Returning(l)
  {
    var c := ContextOf(env, l);
    assert c[8] == Header(l.prog)[0] == l.vector;
    assert Rd32(m, ContextAt(env, l) + 4 * 8) == c[8];
  }

  lemma HandlerContext(env: Env, l: Level, s: State)
    requires Common(env, l, s) && l.pos == RetIdx(l.prog) && InHandler(env, l, s)
    ensures Holds(s.mem, ContextAt(env, l), ContextOf(env, l))
    ensures Rd32(s.mem, l.base) == env.at(l.prog, l.pos + 1)
  {
    var ws := [env.at(l.prog, l.pos + 1)] + ContextOf(env, l);
    HoldsDrop(s.mem, l.base, ws, 1);
    assert ws[1..] == ContextOf(env, l);
    assert Rd32(s.mem, l.base + 4 * 0) == ws[0];
  }

  /** One instruction before the call, on any shadow. */
  lemma StepStraight(env: Env, l: Level, s: State, t: State, i: Instr, a: Shadow)
    requires Common(env, l, s) && l.pos + 1 < RetIdx(l.prog)
    requires Match(env, s, a, LevelTop(env, l)) && Straight(i, a, LevelTop(env, l))
    requires Exec(env, i, s, env.at(l.prog, l.pos + 1), env.at(l.prog, l.pos + 2)) == Some(t)
    ensures Common(env, l.(pos := l.pos + 1), t)
    ensures Match(env, t, ShadowStep(i, a, LevelTop(env, l)), LevelTop(env, l)) && t.eip == env.at(l.prog, l.pos + 1)
  {
    var top := LevelTop(env, l);
    Refines(env, i, s, a, top, env.at(l.prog, l.pos + 1), env.at(l.prog, l.pos + 2));
    KeptTrans(env, l.saved.mem, s.mem, t.mem, top, top);
  }

  lemma StepCall(env: Env, l: Level, s: State, t: State, r: Regs)
    requires Common(env, l, s) && l.pos + 1 == RetIdx(l.prog) && !BareIret(l)
    requires Match(env, s, Shadow(r, ContextOf(env, l)), LevelTop(env, l))
    requires Push(env, s.(eip := env.at(l.prog, l.pos + 1)), [env.at(l.prog, l.pos + 2)]) == Some(t)
    ensures Inv(env, l.(pos := l.pos + 1, base := t.esp), t)
  {
    PushHolds(env, s.(eip := env.at(l.prog, l.pos + 1)), [env.at(l.prog, l.pos + 2)], ContextOf(env, l));
    KeptTrans(env, l.saved.mem, s.mem, t.mem, LevelTop(env, l), s.esp);
  }

  /** Instructions that only take words off the stack keep what is common to all positions. */
  lemma CommonAdvance(env: Env, l: Level, s: State, t: State)
    requires Common(env, l, s) && RetIdx(l.prog) <= l.pos && l.pos + 1 < CodeLength(l.prog)
    requires t.mem == s.mem && t.cs == s.cs && t.ss == s.ss && IfOn(t.eflags) == IfOn(s.eflags)
    requires s.esp <= t.esp <= LevelTop(env, l)
    ensures Common(env, l.(pos := l.pos + 1), t)
  {
  }

  lemma ContextFits(env: Env, l: Level)
    requires IsProg(l.prog)
    ensures ContextAt(env, l) + 4 * |ContextOf(env, l)| == LevelTop(env, l)
    ensures |ContextOf(env, l)| == 8 + |Header(l.prog)| + |FrameOf(l)| && |FrameOf(l)| >= 3
    ensures ContextOf(env, l)[8 + |Header(l.prog)|..] == FrameOf(l)
  {
  }

  /** The handler goes back to the instruction after the call, having returned for good reason. */
  lemma RetRestores(env: Env, l: Level, s: State, t: State)
    requires Common(env, l, s) && l.pos == RetIdx(l.prog) && !BareIret(l) && InHandler(env, l, s)
    requires s.esp == l.base && HandlerReturns(l.prog, s.mem, l.base + 4) && RetFrom(env, s) == Some(t)
    ensures t == s.(esp := ContextAt(env, l), eip := env.at(l.prog, l.pos + 1)) && Returning(l)
  {
    HandlerContext(env, l, s);
    if l.prog.Stub? { VectorSlot(env, l, s.mem); }
  }

  /** Taking n more words of the context off the stack. */
  lemma TakenBack(env: Env, l: Level, s: State, i: nat, n: nat)
    requires IsProg(l.prog) && i + n <= |ContextOf(env, l)| && s.esp + 4 * (|ContextOf(env, l)| - i) <= SPACE
    requires Holds(s.mem, s.esp, ContextOf(env, l)[i..])
    ensures Holds(s.mem, s.esp + 4 * n, ContextOf(env, l)[i + n..])
  {
    HoldsDrop(s.mem, s.esp, ContextOf(env, l)[i..], n);
    assert ContextOf(env, l)[i..][n..] == ContextOf(env, l)[i + n..];
  }

  /** Any way of taking the context off the stack, from word i to word j, the next position's. */
  lemma StepDown(env: Env, l: Level, l': Level, s: State, t: State, i: nat, j: nat)
    requires Proper(env, l) && Returning(l) && l' == l.(pos := l.pos + 1) && Proper(env, l') && env.lo <= ContextAt(env, l) - 4
    requires i <= j == Popped(l') && j <= 8 + |Header(l.prog)| && LevelTop(env, l) <= SPACE
    requires s.esp == ContextAt(env, l) + 4 * i && Holds(s.mem, s.esp, ContextOf(env, l)[i..])
    requires t.mem == s.mem && t.esp == ContextAt(env, l) + 4 * j && t.eip == env.at(l.prog, l.pos + 1)
    requires j > 0 ==> t.r == l.saved.r
    ensures AfterHandler(env, l', t)
  {
    ContextFits(env, l);
    TakenBack(env, l, s, i, j - i);
    assert ContextOf(env, l') == ContextOf(env, l);
  }

  lemma PopaReads(env: Env, s: State, t: State, c: seq<Word>, r: Regs, esp: Word)
    requires |c| >= 8 && s.esp + 4 * |c| <= SPACE && Holds(s.mem, s.esp, c)
    requires c[..8] == GprWords(r, esp) && PopaFrom(env, s) == Some(t)
    ensures t.r == r && t == s.(esp := Wrap(s.esp + 32), r := r)
  {
    var g := c[..8];
    HoldsAt(s.mem, s.esp, c, 0); HoldsAt(s.mem, s.esp, c, 1); HoldsAt(s.mem, s.esp, c, 2); HoldsAt(s.mem, s.esp, c, 4); HoldsAt(s.mem, s.esp, c, 5); HoldsAt(s.mem, s.esp, c, 6); HoldsAt(s.mem, s.esp, c, 7);
    assert c[0] == g[0] && c[1] == g[1] && c[2] == g[2] && c[4] == g[4] && c[5] == g[5] && c[6] == g[6] && c[7] == g[7];
  }

  /** popa gives back all registers. */
  lemma PopaRestores(env: Env, l: Level, s: State, t: State, next: Word)
    requires Common(env, l, s) && l.pos == RetIdx(l.prog) + 1 && !BareIret(l) && AfterHandler(env, l, s)
    requires PopaFrom(env, s.(eip := next)) == Some(t)
    ensures t == s.(esp := Wrap(s.esp + 32), r := l.saved.r, eip := next)
  {
    var c := ContextOf(env, l);
    ContextFits(env, l);
    assert c[0..] == c;
    PopaReads(env, s.(eip := next), t, c, l.saved.r, Below(LevelTop(env, l), |Header(l.prog) + FrameOf(l)|));
  }

  /** IRET on a frame restores what the frame was made of. */
  lemma IretReads(env: Env, s: State, t: State, u: State)
    requires s.esp + 4 * |Frame(u, [])| <= SPACE && Holds(s.mem, s.esp, Frame(u, []))
    requires Cpl(s) == 0 && (Cpl(u) == 0 || Cpl(u) == 3) && IretFrom(env, s) == Some(t)
    ensures t.eip == u.eip && t.cs == u.cs && t.eflags == u.eflags && t.mem == s.mem && t.r == s.r
    ensures Cpl(u) == 3 ==> t.esp == u.esp && t.ss == u.ss
    ensures Cpl(u) == 0 ==> t.esp == Wrap(s.esp + 12) && t.ss == s.ss
  {
    var f := Frame(u, []);
    HoldsAt(s.mem, s.esp, f, 0);
    HoldsAt(s.mem, s.esp, f, 1);
    HoldsAt(s.mem, s.esp, f, 2);
    if Cpl(u) == 3 {
      HoldsAt(s.mem, s.esp, f, 3);
      HoldsAt(s.mem, s.esp, f, 4);
    }
  }

  /** The frame on top of the stack, read by IRET, is the interrupted state. */
  lemma IretRestores(env: Env, l: Level, s: State, t: State)
    requires Common(env, l, s) && l.code == []
    requires s.esp == LevelTop(env, l) - 4 * |FrameOf(l)| && Holds(s.mem, s.esp, FrameOf(l)) && s.r == l.saved.r
    requires IretFrom(env, s) == Some(t)
    ensures Transparent(env, l.saved, t)
  {
    IretReads(env, s, t, l.saved);
  }

  /** Which instruction the path has at the level's position, as far as the proof needs it; e and
      e' are the shadows before and after it. */
  ghost predicate Position(env: Env, l: Level, i: Instr, e: Shadow, e': Shadow)
    requires IsProg(l.prog)
  {
    var ret := RetIdx(l.prog);
    if BareIret(l) then i == Iret
    else
      && (l.pos + 1 < ret ==> Straight(i, e, LevelTop(env, l)) && e' == ShadowStep(i, e, LevelTop(env, l)))
      && (l.pos + 1 == ret ==>
            && i == Call && e.ws == ContextOf(env, l)
            && e.r == l.saved.r.(eax := Below(LevelTop(env, l), |ContextOf(env, l)|)))
      && (l.pos == ret ==> i == Ret)
      && (l.pos == ret + 1 ==> i == Popa)
      && (l.pos == ret + 2 ==> i == if l.prog.Stub? then AddEsp(8) else Iret)
      && (l.pos == ret + 3 ==> i == Iret && l.prog.Stub?)
  }

  ghost predicate Here(env: Env, l: Level, i: Instr)
    requires IsProg(l.prog) && l.pos < CodeLength(l.prog)
  {
    Position(env, l, i, Expected(env, l), Expected(env, l.(pos := l.pos + 1)))
  }

  lemma BeforeIn(env: Env, l: Level, code: seq<Instr>)
    requires IsProg(l.prog) && l.pos < RetIdx(l.prog) && !BareIret(l) && Shape(code, l.prog)
    ensures var a, top := Shadow(l.saved.r, FrameOf(l)), LevelTop(env, l);
      Position(env, l, code[l.pos], ShadowAt(code, a, top, l.pos), ShadowAt(code, a, top, l.pos + 1))
  {
    var a, top := Shadow(l.saved.r, FrameOf(l)), LevelTop(env, l);
    if l.pos + 1 < RetIdx(l.prog) {
      PathStep(code, l.prog, l.saved.r, FrameOf(l), top, l.pos);
    } else {
      ShapedPath(code, l.prog, l.saved.r, FrameOf(l), top);
    }
    PositionBefore(env, l, code[l.pos], ShadowAt(code, a, top, l.pos), ShadowAt(code, a, top, l.pos + 1));
  }

  lemma PositionBefore(env: Env, l: Level, i: Instr, e: Shadow, e': Shadow)
    requires IsProg(l.prog) && l.pos < RetIdx(l.prog) && !BareIret(l)
    requires if l.pos + 1 < RetIdx(l.prog) then Straight(i, e, LevelTop(env, l)) && e' == ShadowStep(i, e, LevelTop(env, l))
             else i == Call && e == Shadow(l.saved.r.(eax := Below(LevelTop(env, l), |ContextOf(env, l)|)), ContextOf(env, l))
    ensures Position(env, l, i, e, e')
  {
  }

  lemma AfterIn(env: Env, l: Level, code: seq<Instr>, e: Shadow, e': Shadow)
    requires IsProg(l.prog) && RetIdx(l.prog) <= l.pos < CodeLength(l.prog) && !BareIret(l) && Shape(code, l.prog)
    ensures Position(env, l, code[l.pos], e, e')
  {
  }

  lemma LocateBefore(env: Env, l: Level)
    requires Loaded(env) && IsProg(l.prog) && l.pos < RetIdx(l.prog) && !BareIret(l)
    ensures |env.code(l.prog)| == CodeLength(l.prog) > l.pos && Here(env, l, env.code(l.prog)[l.pos])
  {
    InMemory(env, l.prog);
    BeforeIn(env, l, env.code(l.prog));
  }

  lemma LocateAfter(env: Env, l: Level)
    requires Loaded(env) && IsProg(l.prog) && RetIdx(l.prog) <= l.pos < CodeLength(l.prog) && !BareIret(l)
    ensures |env.code(l.prog)| == CodeLength(l.prog) && Here(env, l, env.code(l.prog)[l.pos])
  {
    InMemory(env, l.prog);
    AfterIn(env, l, env.code(l.prog), Expected(env, l), Expected(env, l.(pos := l.pos + 1)));
  }

  lemma Locate(env: Env, l: Level)
    requires Loaded(env) && IsProg(l.prog) && l.pos < CodeLength(l.prog)
    ensures |env.code(l.prog)| == CodeLength(l.prog) && Here(env, l, env.code(l.prog)[l.pos])
  {
    if BareIret(l) {
      InMemory(env, l.prog);
    } else if l.pos < RetIdx(l.prog) {
      LocateBefore(env, l);
    } else {
      LocateAfter(env, l);
    }
  }

  lemma KeepsRet(env: Env, l: Level, s: State, t: State)
    requires Common(env, l, s) && l.pos == RetIdx(l.prog) && !BareIret(l) && InHandler(env, l, s)
    requires s.esp == l.base && HandlerReturns(l.prog, s.mem, l.base + 4) && RetFrom(env, s) == Some(t)
    ensures Common(env, l.(pos := l.pos + 1), t) && AfterHandler(env, l.(pos := l.pos + 1), t)
  {
    RetRestores(env, l, s, t);
    HandlerContext(env, l, s);
    ContextFits(env, l);
    assert ContextOf(env, l)[0..] == ContextOf(env, l);
    CommonAdvance(env, l, s, t);
    StepDown(env, l, l.(pos := l.pos + 1), s.(esp := ContextAt(env, l)), t, 0, 0);
  }

  lemma KeepsPopa(env: Env, l: Level, s: State, t: State)
    requires Common(env, l, s) && l.pos == RetIdx(l.prog) + 1 && !BareIret(l) && AfterHandler(env, l, s)
    requires PopaFrom(env, s.(eip := env.at(l.prog, l.pos + 1))) == Some(t)
    ensures Common(env, l.(pos := l.pos + 1), t) && AfterHandler(env, l.(pos := l.pos + 1), t)
  {
    PopaRestores(env, l, s, t, env.at(l.prog, l.pos + 1));
    ContextFits(env, l);
    CommonAdvance(env, l, s, t);
    StepDown(env, l, l.(pos := l.pos + 1), s, t, 0, 8);
  }

  lemma KeepsAddEsp(env: Env, l: Level, s: State, t: State)
    requires Common(env, l, s) && l.prog.Stub? && l.pos == RetIdx(l.prog) + 2 && !BareIret(l) && AfterHandler(env, l, s)
    requires IfOn(t.eflags) == IfOn(s.eflags) && t == s.(esp := Wrap(s.esp + 8), eip := env.at(l.prog, l.pos + 1), eflags := t.eflags)
    ensures Common(env, l.(pos := l.pos + 1), t) && AfterHandler(env, l.(pos := l.pos + 1), t)
  {
    assert |Header(l.prog)| == 2;
    ContextFits(env, l);
    CommonAdvance(env, l, s, t);
    StepDown(env, l, l.(pos := l.pos + 1), s, t, 8, 10);
  }

  lemma ExecAfter(env: Env, i: Instr, s: State, next: Word, after: Word, t: State)
    requires Exec(env, i, s, next, after) == Some(t)
    ensures i == Ret ==> RetFrom(env, s) == Some(t)
    ensures i == Popa ==> PopaFrom(env, s.(eip := next)) == Some(t)
    ensures i == AddEsp(8) ==> t == s.(esp := Wrap(s.esp + 8), eip := next, eflags := env.addFlags(s.eflags, Wrap(s.esp + 8)))
  {
  }

  lemma StepKeepsAfter(env: Env, l: Level, s: State, t: State, i: Instr)
    requires Inv(env, l, s) && Here(env, l, i) && i != Iret && l.pos >= RetIdx(l.prog)
    requires i == Ret ==> s.esp == l.base && HandlerReturns(l.prog, s.mem, l.base + 4) && RetFrom(env, s) == Some(t)
    requires i == Popa ==> PopaFrom(env, s.(eip := env.at(l.prog, l.pos + 1))) == Some(t)
    requires i == AddEsp(8) ==> t == s.(esp := Wrap(s.esp + 8), eip := env.at(l.prog, l.pos + 1), eflags := t.eflags) && IfOn(t.eflags) == IfOn(s.eflags)
    ensures Inv(env, l.(pos := l.pos + 1), t)
  {
    if i == Ret {
      KeepsRet(env, l, s, t);
    } else if i == Popa {
      KeepsPopa(env, l, s, t);
    } else {
      KeepsAddEsp(env, l, s, t);
    }
  }

  lemma StepKeepsBefore(env: Env, l: Level, s: State, t: State, i: Instr)
    requires Common(env, l, s) && l.pos + 1 < RetIdx(l.prog) && !BareIret(l)
    requires Match(env, s, Expected(env, l), LevelTop(env, l)) && Here(env, l, i)
    requires Exec(env, i, s, env.at(l.prog, l.pos + 1), env.at(l.prog, l.pos + 2)) == Some(t)
    ensures i != Call && Inv(env, l.(pos := l.pos + 1), t)
  {
    StepStraight(env, l, s, t, i, Expected(env, l));
  }

  lemma StepKeepsCall(env: Env, l: Level, s: State, t: State, i: Instr)
    requires Common(env, l, s) && l.pos + 1 == RetIdx(l.prog) && !BareIret(l)
    requires Match(env, s, Expected(env, l), LevelTop(env, l)) && Here(env, l, i)
    requires Exec(env, i, s, env.at(l.prog, l.pos + 1), env.at(l.prog, l.pos + 2)) == Some(t)
    ensures i == Call && Inv(env, l.(pos := l.pos + 1, base := t.esp), t)
  {
    StepCall(env, l, s, t, Expected(env, l).r);
  }

  /** Any instruction but the last keeps the invariant. */
  lemma StepKeeps(env: Env, l: Level, s: State, t: State, i: Instr)
    requires Valid(env) && Inv(env, l, s) && Here(env, l, i) && i != Iret
    requires i == Ret ==> s.esp == l.base && HandlerReturns(l.prog, s.mem, l.base + 4)
    requires Exec(env, i, s, env.at(l.prog, l.pos + 1), env.at(l.prog, l.pos + 2)) == Some(t)
    ensures Inv(env, NextLevel(l, i, t), t)
  {
    if l.pos + 1 < RetIdx(l.prog) {
      StepKeepsBefore(env, l, s, t, i);
      assert NextLevel(l, i, t) == l.(pos := l.pos + 1);
    } else if l.pos + 1 == RetIdx(l.prog) {
      StepKeepsCall(env, l, s, t, i);
    } else {
      ExecAfter(env, i, s, env.at(l.prog, l.pos + 1), env.at(l.prog, l.pos + 2), t);
      StepKeepsAfter(env, l, s, t, i);
      assert NextLevel(l, i, t) == l.(pos := l.pos + 1);
    }
  }

  /** The last instruction gives the interrupted program its state back. */
  lemma StepReturns(env: Env, l: Level, s: State, t: State)
    requires Valid(env) && Inv(env, l, s) && Here(env, l, Iret)
    requires IretFrom(env, s) == Some(t)
    ensures Transparent(env, l.saved, t)
  {
    if !BareIret(l) {
      ContextFits(env, l);
    }
    IretRestores(env, l, s, t);
  }
}
