/** What the interrupt and system call machinery guarantees in every run. */
module Guarantees {
  import opened Memory
  import opened Wrappers
  import opened Pic
  import opened Descriptors
  import opened Machine
  import opened Levels
  import opened Runs
  import opened Controllers

  /** The invariant of the whole kernel. */
  ghost predicate Sound(env: Env, k: Kernel) {
    Good(env, k) && PicsGood(k)
  }

  /** A program about to run, in ring 0 or ring 3, with the controllers as pic_init leaves them and
      no interrupt in service. */
  predicate Initial(k: Kernel) {
    && k.levels == [] && RingsAgree(k.cpu)
    && Configured(k.cpu.pics) && k.cpu.pics.master.isr == {} && k.cpu.pics.slave.isr == {}
  }

  predicate Interrupts(e: Event) { e.Fault? || e.External? || e.SoftInt? }

  /** Whether INT v is refused from the current ring and turns into a protection fault. */
  predicate Refused(env: Env, k: Kernel, v: nat)
    requires |env.idt| == IDT_NR_DESC && v < 256
  {
    env.idt[v].dpl < Cpl(k.cpu)
  }

  /** The state an event interrupts: what must be restored. A completed INT resumes after itself. */
  function Interrupted(env: Env, k: Kernel, e: Event): State
    requires |env.idt| == IDT_NR_DESC && Interrupts(e) && (e.SoftInt? ==> e.vector < 256)
  {
    match e
    case Fault(_, _) => k.cpu
    case External(q) => k.cpu.(pics := Acknowledge(k.cpu.pics, q).0)
    case SoftInt(v, next) => if Refused(env, k, v) then k.cpu else k.cpu.(eip := next)
  }

  lemma MovedGood(env: Env, k: Kernel, to: State)
    requires Good(env, k)
    requires if k.levels == [] then RingsAgree(to) else Inv(env, LastLevel(k), to)
    ensures Good(env, k.(cpu := to))
  {
    if k.levels != [] {
      GoodReplace(env, k, LastLevel(k), to);
      assert k.levels == k.levels[..|k.levels| - 1] + [LastLevel(k)];
    }
  }

  lemma MovedPics(k: Kernel, to: State)
    requires PicsGood(k) && to.pics == k.cpu.pics
    ensures PicsGood(k.(cpu := to))
  {
  }

  lemma MovedSound(env: Env, k: Kernel, to: State)
    requires Sound(env, k) && to.pics == k.cpu.pics
    requires if k.levels == [] then RingsAgree(to) else Inv(env, LastLevel(k), to)
    ensures Sound(env, k.(cpu := to))
  {
    MovedGood(env, k, to);
    MovedPics(k, to);
  }

  lemma OwnSound(env: Env, k: Kernel, to: State)
    requires Valid(env) && Sound(env, k) && OwnMove(env, k, to)
    ensures Sound(env, k.(cpu := to))
  {
    if k.levels != [] { HandlerMove(env, k, to); }
    MovedSound(env, k, to);
  }

  /** The vector an event is delivered through. */
  function VectorOf(env: Env, k: Kernel, e: Event): nat
    requires |env.idt| == IDT_NR_DESC && Interrupts(e) && (e.SoftInt? ==> e.vector < 256)
  {
    match e
    case Fault(v, _) => v
    case External(q) => Acknowledge(k.cpu.pics, q).1
    case SoftInt(v, _) => if Refused(env, k, v) then 13 else v
  }

  /** k' is k interrupted in state s through a vector: one more level, kernel code selector, and the
      frame where it belongs. From ring 3 that is the very top of the TSS's ring 0 stack. */
  ghost predicate Delivered(env: Env, k: Kernel, k': Kernel, s: State, vector: nat) {
    && Sound(env, k')
    && |k'.levels| == |k.levels| + 1 && k'.levels[..|k.levels|] == k.levels
    && LastLevel(k').saved == s && LastLevel(k').vector == vector
    && k'.cpu.cs == KERNEL_CODE
    && k'.cpu.esp == FrameTop(env, s) - 4 * |FrameOf(LastLevel(k'))|
    && (Cpl(s) == 3 ==> k'.cpu.ss == env.ss0)
  }

  lemma DeliverSound(env: Env, k: Kernel, s: State, v: nat, code: seq<Word>, irq: Option<Irq>)
    requires Valid(env) && Good(env, k) && v < 256 && RingsAgree(s)
    requires k.levels != [] ==> Transparent(env, k.cpu, s)
    requires |code| <= (if HasErrorCode(v) then 1 else 0)
    requires var o := Deliver(env, k, s, v, code, irq);
      o.Running? ==> PicsGood(o.k)
    ensures var o := Deliver(env, k, s, v, code, irq);
      o != Stopped(Wild) && (o.Running? ==> Delivered(env, k, o.k, s, v))
  {
    DeliverGood(env, k, s, v, code, irq);
    if Deliver(env, k, s, v, code, irq).Running? { DeliverInv(env, k, s, v, code, irq); }
  }

  lemma FaultSound(env: Env, k: Kernel, v: nat, code: seq<Word>)
    requires Valid(env) && Sound(env, k)
    ensures var o := Step(env, k, Fault(v, code));
      o != Stopped(Wild) && (o.Running? ==> Delivered(env, k, o.k, k.cpu, v))
  {
    if v < 20 && |code| == (if HasErrorCode(v) then 1 else 0) {
      InternalPics(env, k, k.cpu, v, code);
      DeliverSound(env, k, k.cpu, v, code, None);
    }
  }

  lemma ExternalSound(env: Env, k: Kernel, q: Irq)
    requires Valid(env) && Sound(env, k)
    ensures var (pics, v) := Acknowledge(k.cpu.pics, q);
      var o := Step(env, k, External(q));
      o != Stopped(Wild) && (o.Running? ==> Delivered(env, k, o.k, k.cpu.(pics := pics), v))
  {
    if IfOn(k.cpu.eflags) && q.Valid() {
      ExternalPics(env, k, q);
      var (pics, v) := Acknowledge(k.cpu.pics, q);
      DeliverSound(env, k, k.cpu.(pics := pics), v, [], Some(q));
    }
  }

  lemma SoftIntSound(env: Env, k: Kernel, v: nat, next: Word)
    requires Valid(env) && Sound(env, k)
    ensures var o := Step(env, k, SoftInt(v, next));
      && o != Stopped(Wild)
      && (o.Running? ==> v < 256)
      && (o.Running? ==> Delivered(env, k, o.k, if Refused(env, k, v) then k.cpu else k.cpu.(eip := next),
                                   if Refused(env, k, v) then 13 else v))
  {
    if k.levels == [] && v < 256 {
      if Refused(env, k, v) {
        InternalPics(env, k, k.cpu, 13, [8 * v + 2]);
        DeliverSound(env, k, k.cpu, 13, [8 * v + 2], None);
      } else {
        InternalPics(env, k, k.cpu.(eip := next), v, []);
        DeliverSound(env, k, k.cpu.(eip := next), v, [], None);
      }
    }
  }

  /** An event that interrupts the current program pushes one level, with the current state saved. */
  lemma InterruptSound(env: Env, k: Kernel, e: Event)
    requires Valid(env) && Sound(env, k) && Interrupts(e)
    ensures Step(env, k, e) != Stopped(Wild)
    ensures Step(env, k, e).Running? ==>
      (e.SoftInt? ==> e.vector < 256) &&
      Delivered(env, k, Step(env, k, e).k, Interrupted(env, k, e), VectorOf(env, k, e))
  {
    match e
    case Fault(v, code) => FaultSound(env, k, v, code);
    case External(q) => ExternalSound(env, k, q);
    case SoftInt(v, next) => SoftIntSound(env, k, v, next);
  }

  lemma StepSound(env: Env, k: Kernel, e: Event)
    requires Valid(env) && Sound(env, k)
    ensures Step(env, k, e) != Stopped(Wild)
    ensures var o := Step(env, k, e);
      o.Running? ==> Sound(env, o.k) && Evolves(env, k, o.k)
  {
    match e
    case Own(to) => if OwnMove(env, k, to) { OwnSound(env, k, to); }
    case Go =>
      GoStepGood(env, k);
      if GoStep(env, k).Running? { GoStepPics(env, k); }
    case Fault(_, _) => InterruptSound(env, k, e);
    case External(_) => InterruptSound(env, k, e);
    case SoftInt(_, _) => InterruptSound(env, k, e);
  }

  /** Every run from an initial state keeps the invariant, and control never leaves the known code. */
  lemma {:induction false} RunSound(env: Env, k: Kernel, es: seq<Event>)
    requires Valid(env) && Sound(env, k)
    ensures Run(env, k, es) != Stopped(Wild)
    ensures Run(env, k, es).Running? ==> Sound(env, Run(env, k, es).k)
    decreases |es|
  {
    if es != [] {
      StepSound(env, k, es[0]);
      if Step(env, k, es[0]).Running? {
        RunSound(env, Step(env, k, es[0]).k, es[1..]);
      }
    }
  }

  lemma InitialSound(env: Env, k: Kernel)
    requires Initial(k)
    ensures Sound(env, k)
  {
  }

  // ---- Transparency -----------------------------------------------------------------------------------

  /** The events es lead from k to k2, where for the first time no more than n interruptions are in
      progress. Anything may happen in between, further interruptions included. */
  ghost predicate Episode(env: Env, k: Kernel, es: seq<Event>, k2: Kernel, n: nat)
    requires |env.idt| == IDT_NR_DESC
    decreases |es|
  {
    if es == [] then k == k2 && |k.levels| <= n
    else |k.levels| > n && Step(env, k, es[0]).Running? && Episode(env, Step(env, k, es[0]).k, es[1..], k2, n)
  }

  lemma {:induction false} EpisodeRestores(env: Env, k: Kernel, es: seq<Event>, k2: Kernel, n: nat)
    requires Valid(env) && Sound(env, k) && |k.levels| > n && Episode(env, k, es, k2, n)
    ensures Sound(env, k2) && k2.levels == k.levels[..n] && Transparent(env, k.levels[n].saved, k2.cpu)
    decreases |es|
  {
    StepSound(env, k, es[0]);
    var k' := Step(env, k, es[0]).k;
    if |k'.levels| > n {
      EpisodeRestores(env, k', es[1..], k2, n);
    } else {
      EpisodeOver(env, k', es[1..], k2, n);
    }
    OneStepThenRest(env, k, k', k2, n);
  }

  lemma EpisodeOver(env: Env, k: Kernel, es: seq<Event>, k2: Kernel, n: nat)
    requires |env.idt| == IDT_NR_DESC && Episode(env, k, es, k2, n) && |k.levels| <= n
    ensures es == [] && k2 == k
  {
  }

  /** One step, and what the rest of the episode gives from there. */
  lemma OneStepThenRest(env: Env, k: Kernel, k': Kernel, k2: Kernel, n: nat)
    requires Evolves(env, k, k') && |k.levels| > n
    requires if |k'.levels| > n then k2.levels == k'.levels[..n] && Transparent(env, k'.levels[n].saved, k2.cpu) else k2 == k'
    ensures k2.levels == k.levels[..n] && Transparent(env, k.levels[n].saved, k2.cpu)
  {
    if |k'.levels| > n { StillThere(env, k, k', n); }
  }

  lemma StillThere(env: Env, k: Kernel, k': Kernel, n: nat)
    requires Evolves(env, k, k') && |k.levels| > n && |k'.levels| > n
    ensures k'.levels[..n] == k.levels[..n] && SameLevel(k.levels[n], k'.levels[n])
  {
    var m := |k.levels|;
    if k'.levels != k.levels {
      if |k'.levels| == m {
        assert k'.levels[..n] == k'.levels[..m - 1][..n] == k.levels[..m - 1][..n] == k.levels[..n];
        if n < m - 1 { assert k'.levels[n] == k'.levels[..m - 1][n] == k.levels[n]; }
      } else if |k'.levels| == m + 1 {
        assert k'.levels[..n] == k'.levels[..m][..n];
        assert k'.levels[n] == k'.levels[..m][n];
      }
    }
  }

  /** Interrupt transparency. Whatever event interrupts whatever program - user code, kernel code, a
      handler or the interrupt path itself - when the interruption is over, after any nesting, the
      registers, EIP, CS, EFLAGS, ESP, SS and the protected memory are those of the moment it began,
      and every suspended interruption is where it was. */
  lemma InterruptionIsTransparent(env: Env, k: Kernel, e: Event, es: seq<Event>, k2: Kernel)
    requires Valid(env) && Sound(env, k) && Interrupts(e) && Step(env, k, e).Running?
    requires Episode(env, Step(env, k, e).k, es, k2, |k.levels|)
    ensures e.SoftInt? ==> e.vector < 256
    ensures Transparent(env, Interrupted(env, k, e), k2.cpu) && k2.levels == k.levels && Sound(env, k2)
    ensures var s := Interrupted(env, k, e);
      && k2.cpu == s.(mem := k2.cpu.mem, pics := k2.cpu.pics)
      && forall a :: 0 <= a < SPACE && k2.cpu.mem[a] != s.mem[a] ==>
           if env.lo <= a < env.hi then a < (if s.cs % 4 == 3 then env.esp0 else s.esp) else a in env.own
  {
    InterruptSound(env, k, e);
    EpisodeRestores(env, Step(env, k, e).k, es, k2, |k.levels|);
  }
}
