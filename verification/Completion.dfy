/** Interruptions end: from wherever one stands, given stack to reach its handler and a handler that
    comes back, there are steps that finish it, and steps that finish all of them. */
module Completion {
  import opened Memory
  import opened Wrappers
  import opened Descriptors
  import opened Machine
  import opened Stack
  import opened Paths
  import opened Levels
  import opened Steps
  import opened Runs
  import opened Guarantees
  import opened Consequences
  import opened Progress

  /** The handler comes back, or there is none. */
  predicate Finishing(l: Level) { BareIret(l) || Returning(l) }

  /** Stack for the rest of the way to the handler, 32 bytes an instruction. */
  ghost predicate RoomAhead(env: Env, l: Level, s: State)
    requires IsProg(l.prog)
  {
    !BareIret(l) && l.pos < RetIdx(l.prog) ==> s.esp >= env.lo + MARGIN * (RetIdx(l.prog) - l.pos)
  }

  ghost predicate CanFinish(env: Env, k: Kernel) {
    k.levels != [] && IsProg(LastLevel(k).prog) && Finishing(LastLevel(k)) && RoomAhead(env, LastLevel(k), k.cpu)
  }

  /** The handler has yet to clean up its part of the stack. */
  ghost predicate Busy(k: Kernel) { Handling(k) && k.cpu.esp != LastLevel(k).base }

  // ---- One step ---------------------------------------------------------------------------------------

  lemma HandlerReady(env: Env, k: Kernel)
    requires Sound(env, k) && Handling(k) && Finishing(LastLevel(k))
    ensures HandlerReturns(LastLevel(k).prog, k.cpu.mem, LastLevel(k).base + 4)
  {
    if LastLevel(k).prog.Stub? { HandlerVector(env, k); }
  }

  lemma RetPlace(env: Env, l: Level, i: Instr)
    requires IsProg(l.prog) && l.pos < CodeLength(l.prog) && Here(env, l, i)
    ensures i == Ret <==> !BareIret(l) && l.pos == RetIdx(l.prog)
  {
    RetPlaceIn(env, l, i, Expected(env, l), Expected(env, l.(pos := l.pos + 1)));
  }

  lemma RetPlaceIn(env: Env, l: Level, i: Instr, e: Shadow, e': Shadow)
    requires IsProg(l.prog) && l.pos < CodeLength(l.prog) && Position(env, l, i, e, e')
    ensures i == Ret <==> !BareIret(l) && l.pos == RetIdx(l.prog)
  {
  }

  lemma GoRuns(env: Env, k: Kernel) returns (i: Instr, t: State)
    requires Valid(env) && Sound(env, k) && CanFinish(env, k) && !Busy(k)
    ensures GoStep(env, k) == Running(AfterInstr(k, i, t)) && Here(env, LastLevel(k), i)
    ensures LastLevel(k).pos < |env.code(LastLevel(k).prog)| && i == env.code(LastLevel(k).prog)[LastLevel(k).pos]
    ensures ExecAt(env, LastLevel(k), i, k.cpu) == Some(t)
  {
    var x;
    i, x := GoStepIs(env, k);
    RetPlace(env, LastLevel(k), i);
    NotWild(env, k, i, x);
    if i == Ret { HandlerReady(env, k); }
    TopRuns(env, k, i);
    t := x.value;
  }

  lemma WordsGrow(i: Instr, a: Shadow, top: Word)
    ensures |ShadowStep(i, a, top).ws| <= |a.ws| + 8
  {
  }

  lemma NextPlace(env: Env, l: Level, i: Instr, e: Shadow, e': Shadow)
    requires IsProg(l.prog) && l.pos < CodeLength(l.prog) && Position(env, l, i, e, e') && i != Iret
    ensures !BareIret(l) && l.pos + 1 < CodeLength(l.prog)
    ensures l.pos + 1 < RetIdx(l.prog) ==> i != Call && e' == ShadowStep(i, e, LevelTop(env, l))
  {
  }

  lemma MatchDepth(env: Env, s: State, e: Shadow, t: State, e': Shadow, top: Word)
    requires Match(env, s, e, top) && Match(env, t, e', top) && |e'.ws| <= |e.ws| + 8
    ensures t.esp >= s.esp - MARGIN
  {
  }

  lemma ExpectedMatch(env: Env, l: Level, s: State)
    requires Inv(env, l, s) && l.pos < RetIdx(l.prog)
    ensures Match(env, s, Expected(env, l), LevelTop(env, l))
  {
  }

  /** An instruction uses at most its share of the stack. */
  lemma RoomKept(env: Env, k: Kernel, i: Instr, t: State)
    requires Good(env, k) && k.levels != [] && Here(env, LastLevel(k), i) && i != Iret
    requires LastLevel(k).pos + 1 < RetIdx(LastLevel(k).prog) && RoomAhead(env, LastLevel(k), k.cpu)
    requires Inv(env, NextLevel(LastLevel(k), i, t), t)
    ensures RoomAhead(env, NextLevel(LastLevel(k), i, t), t)
  {
    var l := LastLevel(k);
    LastProper(env, k);
    LastInv(env, k);
    var e, e' := Expected(env, l), Expected(env, l.(pos := l.pos + 1));
    NextPlace(env, l, i, e, e');
    WordsGrow(i, e, LevelTop(env, l));
    ExpectedMatch(env, l, k.cpu);
    ExpectedMatch(env, NextLevel(l, i, t), t);
    MatchDepth(env, k.cpu, e, t, e', LevelTop(env, l));
  }

  /** Steps the topmost interruption still needs. */
  ghost function Left(k: Kernel): int
    requires k.levels != [] && IsProg(LastLevel(k).prog)
  {
    2 * (CodeLength(LastLevel(k).prog) - LastLevel(k).pos) + (if Busy(k) then 1 else 0)
  }

  lemma AfterShape(k: Kernel, i: Instr, t: State)
    requires k.levels != [] && i != Iret
    ensures |AfterInstr(k, i, t).levels| == |k.levels| && LastLevel(AfterInstr(k, i, t)) == NextLevel(LastLevel(k), i, t)
  {
  }

  lemma BeyondCall(env: Env, l: Level, i: Instr, t: State)
    requires IsProg(l.prog) && l.pos < CodeLength(l.prog) && Here(env, l, i) && i != Iret
    ensures l.pos + 1 < CodeLength(l.prog) && !BareIret(l)
    ensures l.pos + 1 == RetIdx(l.prog) ==> NextLevel(l, i, t).base == t.esp
  {
    NextPlace(env, l, i, Expected(env, l), Expected(env, l.(pos := l.pos + 1)));
    if l.pos + 1 == RetIdx(l.prog) { CallPlace(env, l, i, Expected(env, l), Expected(env, l.(pos := l.pos + 1))); }
  }

  lemma AfterGo(env: Env, k: Kernel, i: Instr, t: State)
    requires Good(env, k) && CanFinish(env, k) && i != Iret && Here(env, LastLevel(k), i)
    requires Good(env, AfterInstr(k, i, t)) && LastLevel(k).pos < CodeLength(LastLevel(k).prog)
    ensures |AfterInstr(k, i, t).levels| == |k.levels| && CanFinish(env, AfterInstr(k, i, t)) && !Busy(AfterInstr(k, i, t))
    ensures 0 <= Left(AfterInstr(k, i, t)) < Left(k)
  {
    AfterShape(k, i, t);
    BeyondCall(env, LastLevel(k), i, t);
    if LastLevel(k).pos + 1 < RetIdx(LastLevel(k).prog) {
      LastInv(env, AfterInstr(k, i, t));
      RoomKept(env, k, i, t);
    }
  }

  lemma CallPlace(env: Env, l: Level, i: Instr, e: Shadow, e': Shadow)
    requires IsProg(l.prog) && Position(env, l, i, e, e') && !BareIret(l) && l.pos + 1 == RetIdx(l.prog)
    ensures i == Call
  {
  }

  /** The handler's last act: leaving ESP where it found it. */
  lemma CleanUp(env: Env, k: Kernel) returns (to: State)
    requires Valid(env) && Sound(env, k) && CanFinish(env, k) && Busy(k)
    ensures Step(env, k, Own(to)) == Running(k.(cpu := to)) && Sound(env, k.(cpu := to))
    ensures CanFinish(env, k.(cpu := to)) && !Busy(k.(cpu := to))
  {
    var l := LastLevel(k);
    LastInv(env, k);
    Locate(env, l);
    to := k.cpu.(esp := l.base);
    StepSound(env, k, Own(to));
  }

  // ---- One interruption -------------------------------------------------------------------------------

  /** One step closer to the end, or at it. */
  ghost predicate Closer(env: Env, k: Kernel, k': Kernel)
    requires k.levels != [] && IsProg(LastLevel(k).prog)
  {
    || |k'.levels| == |k.levels| - 1
    || (|k'.levels| == |k.levels| && CanFinish(env, k') && !Busy(k') && 0 <= Left(k') < Left(k))
  }

  lemma BusyCloser(env: Env, k: Kernel) returns (to: State)
    requires Valid(env) && Sound(env, k) && CanFinish(env, k) && Busy(k)
    ensures Step(env, k, Own(to)) == Running(k.(cpu := to)) && Sound(env, k.(cpu := to)) && Closer(env, k, k.(cpu := to))
  {
    to := CleanUp(env, k);
    LastProper(env, k);
  }

  lemma GoCloser(env: Env, k: Kernel) returns (k': Kernel)
    requires Valid(env) && Sound(env, k) && CanFinish(env, k) && !Busy(k)
    ensures Step(env, k, Go) == Running(k') && Sound(env, k') && Closer(env, k, k')
  {
    var i, t := GoRuns(env, k);
    k' := AfterInstr(k, i, t);
    StepSound(env, k, Go);
    LastProper(env, k);
    if i != Iret { AfterGo(env, k, i, t); }
  }

  lemma OneCloser(env: Env, k: Kernel) returns (e: Event, k': Kernel)
    requires Valid(env) && Sound(env, k) && CanFinish(env, k)
    ensures Step(env, k, e) == Running(k') && Sound(env, k') && Closer(env, k, k')
    ensures !Busy(k) ==> e == Go
  {
    if Busy(k) {
      var to := BusyCloser(env, k);
      e, k' := Own(to), k.(cpu := to);
    } else {
      e := Go;
      k' := GoCloser(env, k);
    }
  }

  lemma EpisodeCons(env: Env, k: Kernel, e: Event, k': Kernel, es: seq<Event>, k2: Kernel, n: nat)
    requires |env.idt| == IDT_NR_DESC && |k.levels| > n && Step(env, k, e) == Running(k') && Episode(env, k', es, k2, n)
    ensures Episode(env, k, [e] + es, k2, n)
  {
    assert ([e] + es)[0] == e && ([e] + es)[1..] == es;
  }

  predicate OnlyGo(es: seq<Event>) { forall j :: 0 <= j < |es| ==> es[j] == Go }

  lemma EpisodeNone(env: Env, k: Kernel, n: nat)
    requires |env.idt| == IDT_NR_DESC && |k.levels| <= n
    ensures Episode(env, k, [], k, n)
  {
  }

  /** The first step of an episode of the topmost interruption, and the rest of it. */
  lemma EpisodeFrom(env: Env, k: Kernel, e: Event, k': Kernel, es: seq<Event>, k2: Kernel)
    requires |env.idt| == IDT_NR_DESC && k.levels != [] && Step(env, k, e) == Running(k')
    requires Episode(env, k', es, k2, |k.levels| - 1)
    ensures Episode(env, k, [e] + es, k2, |k.levels| - 1) && (e == Go && OnlyGo(es) ==> OnlyGo([e] + es))
  {
    EpisodeCons(env, k, e, k', es, k2, |k.levels| - 1);
  }

  /** Wherever the topmost interruption stands, it can be finished: by its own instructions, and one
      move of the handler if that has not cleaned up its stack. */
  lemma {:induction false} Completes(env: Env, k: Kernel) returns (es: seq<Event>, k2: Kernel)
    requires Valid(env) && Sound(env, k) && CanFinish(env, k)
    ensures Episode(env, k, es, k2, |k.levels| - 1)
    ensures !Busy(k) ==> OnlyGo(es)
    decreases Left(k)
  {
    var e, k' := OneCloser(env, k);
    if |k'.levels| == |k.levels| {
      es, k2 := Completes(env, k');
    } else {
      EpisodeNone(env, k', |k.levels| - 1);
      es, k2 := [], k';
    }
    EpisodeFrom(env, k, e, k', es, k2);
    es := [e] + es;
  }

  /** Every interruption that a returning vector brings can be finished by the path alone, and then the
      interrupted program has its state back: transparency is not about runs that never happen. */
  lemma InterruptionEnds(env: Env, k: Kernel, e: Event) returns (es: seq<Event>, k2: Kernel)
    requires Valid(env) && Sound(env, k) && Interrupts(e) && Step(env, k, e).Running?
    requires CanFinish(env, Step(env, k, e).k)
    ensures Episode(env, Step(env, k, e).k, es, k2, |k.levels|) && OnlyGo(es)
    ensures e.SoftInt? ==> e.vector < 256
    ensures Transparent(env, Interrupted(env, k, e), k2.cpu) && k2.levels == k.levels
  {
    InterruptSound(env, k, e);
    FreshNotBusy(env, k, e);
    es, k2 := Completes(env, Step(env, k, e).k);
    InterruptionIsTransparent(env, k, e, es, k2);
  }

  lemma FreshNotBusy(env: Env, k: Kernel, e: Event)
    requires Valid(env) && Sound(env, k) && Interrupts(e) && Step(env, k, e).Running?
    ensures |Step(env, k, e).k.levels| == |k.levels| + 1 && !Busy(Step(env, k, e).k)
  {
    InterruptSound(env, k, e);
    RetIdxPositive(LastLevel(Step(env, k, e).k).prog);
  }

  lemma RetIdxPositive(p: Prog)
    ensures IsProg(p) ==> 1 <= RetIdx(p) <= 12
  {
  }

  // ---- And when they do not --------------------------------------------------------------------------------

  lemma LastPosition(env: Env, l: Level, e: Shadow, e': Shadow)
    requires IsProg(l.prog) && l.pos < CodeLength(l.prog) && Position(env, l, Iret, e, e')
    ensures BareIret(l) || l.pos > RetIdx(l.prog)
  {
  }

  lemma PoppedFinishing(env: Env, k: Kernel, i: Instr, x: Option<State>)
    requires Good(env, k) && k.levels != [] && Proper(env, LastLevel(k)) && Here(env, LastLevel(k), i)
    requires GoInstr(env, k, i, x).Running? && |GoInstr(env, k, i, x).k.levels| < |k.levels|
    ensures Finishing(LastLevel(k))
  {
    var l := LastLevel(k);
    assert i == Iret;
    LastPosition(env, l, Expected(env, l), Expected(env, l.(pos := l.pos + 1)));
    LastInv(env, k);
  }

  lemma EndedFinishing(env: Env, k: Kernel, e: Event)
    requires Valid(env) && Sound(env, k) && Step(env, k, e).Running? && |Step(env, k, e).k.levels| < |k.levels|
    ensures Finishing(LastLevel(k))
  {
    if Interrupts(e) {
      InterruptSound(env, k, e);
    } else if e.Go? {
      var i, x := GoStepIs(env, k);
      LastProper(env, k);
      PoppedFinishing(env, k, i, x);
    }
  }

  lemma StillEndless(env: Env, k: Kernel, k': Kernel, n: nat)
    requires Evolves(env, k, k') && |k.levels| > n && !Finishing(k.levels[n])
    ensures if |k'.levels| > n then !Finishing(k'.levels[n]) else LastLevel(k) == k.levels[n] && |k'.levels| < |k.levels|
  {
    if |k'.levels| > n { StillThere(env, k, k', n); }
  }

  lemma {:induction false} PanicNeverEnds(env: Env, k: Kernel, es: seq<Event>, k2: Kernel, n: nat)
    requires Valid(env) && Sound(env, k) && |k.levels| > n && !Finishing(k.levels[n])
    ensures !Episode(env, k, es, k2, n)
    decreases |es|
  {
    if es != [] && Step(env, k, es[0]).Running? {
      var k' := Step(env, k, es[0]).k;
      StepSound(env, k, es[0]);
      StillEndless(env, k, k', n);
      if |k'.levels| > n {
        PanicNeverEnds(env, k', es[1..], k2, n);
      } else {
        EndedFinishing(env, k, es[0]);
      }
    }
  }

  lemma LevelProper(env: Env, k: Kernel, n: nat)
    requires Good(env, k) && n < |k.levels|
    ensures Proper(env, k.levels[n])
  {
    assert InvOf(env)(k.levels[n], StateOf(k, n));
  }

  /** An interruption whose handler panics never ends: no sequence of events finishes one by a vector below
      20 other than the NMI's, 2. */
  lemma NeverEnds(env: Env, k: Kernel, es: seq<Event>, k2: Kernel, n: nat)
    requires Valid(env) && Sound(env, k) && |k.levels| > n && k.levels[n].vector < 20 && k.levels[n].vector != 2
    ensures !Episode(env, k, es, k2, n)
  {
    LevelProper(env, k, n);
    PanicNeverEnds(env, k, es, k2, n);
  }

  // ---- All interruptions --------------------------------------------------------------------------------

  lemma {:induction false} EpisodeIsRun(env: Env, k: Kernel, es: seq<Event>, k2: Kernel, n: nat)
    requires |env.idt| == IDT_NR_DESC && Episode(env, k, es, k2, n)
    ensures Run(env, k, es) == Running(k2)
    decreases |es|
  {
    if es != [] {
      EpisodeIsRun(env, Step(env, k, es[0]).k, es[1..], k2, n);
    }
  }

  /** Stack for any path to its handler. */
  ghost predicate Roomy(env: Env, s: State) { s.esp >= env.lo + MARGIN * 12 }

  lemma RoomyEnough(env: Env, k: Kernel)
    requires Good(env, k) && k.levels != [] && Roomy(env, k.cpu) && (LastLevel(k).vector == 2 || LastLevel(k).vector >= 20)
    ensures CanFinish(env, k)
  {
    LastProper(env, k);
    RetIdxPositive(LastLevel(k).prog);
  }

  /** A finished interruption leaves at least as much stack as it used. */
  lemma RoomyBelow(env: Env, k: Kernel, k1: Kernel)
    requires Good(env, k) && |k.levels| > 1 && Roomy(env, k.cpu)
    requires Transparent(env, LastLevel(k).saved, k1.cpu)
    ensures Roomy(env, k1.cpu)
  {
    var n := |k.levels|;
    LastInv(env, k);
    assert StateOf(k, n - 2) == LastLevel(k).saved;
    assert InvOf(env)(k.levels[n - 2], StateOf(k, n - 2));
  }

  /** No reachable state is stuck: if all interruptions in progress are of vectors whose handlers come
      back, there is a run that finishes them all and gives the program below them its state back. */
  lemma {:induction false} AllComplete(env: Env, k: Kernel) returns (es: seq<Event>, k2: Kernel)
    requires Valid(env) && Sound(env, k) && (k.levels != [] ==> Roomy(env, k.cpu))
    requires forall j :: 0 <= j < |k.levels| ==> k.levels[j].vector == 2 || k.levels[j].vector >= 20
    ensures Run(env, k, es) == Running(k2) && k2.levels == [] && Sound(env, k2)
    ensures if k.levels == [] then k2 == k else Transparent(env, k.levels[0].saved, k2.cpu)
    decreases |k.levels|
  {
    if k.levels == [] {
      es, k2 := [], k;
    } else {
      var n := |k.levels| - 1;
      RoomyEnough(env, k);
      var es1, k1 := Completes(env, k);
      EpisodeRestores(env, k, es1, k1, n);
      EpisodeIsRun(env, k, es1, k1, n);
      if n > 0 { RoomyBelow(env, k, k1); }
      var es2;
      es2, k2 := AllComplete(env, k1);
      RunSplit(env, k, es1, es2);
      es := es1 + es2;
    }
  }
}
