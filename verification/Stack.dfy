/** Words on the stack, and the shadow run of the interrupt path on a list of words. */
module Stack {
  import opened Memory
  import opened Machine

  lemma HoldsConcat(m: Space, a: int, ws1: seq<Word>, ws2: seq<Word>)
    requires 0 <= a && a + 4 * |ws1| + 4 * |ws2| <= SPACE
    requires Holds(m, a, ws1) && Holds(m, a + 4 * |ws1|, ws2)
    ensures Holds(m, a, ws1 + ws2)
  {
    forall i | 0 <= i < |ws1 + ws2|
      ensures Rd32(m, a + 4 * i) == (ws1 + ws2)[i]
    {
      if i >= |ws1| {
        assert Rd32(m, a + 4 * |ws1| + 4 * (i - |ws1|)) == ws2[i - |ws1|];
      }
    }
  }

  lemma HoldsAt(m: Space, a: int, ws: seq<Word>, i: nat)
    requires 0 <= a && a + 4 * |ws| <= SPACE && Holds(m, a, ws) && i < |ws|
    ensures Rd32(m, a + 4 * i) == ws[i]
  {
  }

  lemma HoldsDrop(m: Space, a: int, ws: seq<Word>, j: nat)
    requires 0 <= a && a + 4 * |ws| <= SPACE && j <= |ws|
    requires Holds(m, a, ws)
    ensures Holds(m, a + 4 * j, ws[j..])
  {
    forall i | 0 <= i < |ws[j..]|
      ensures Rd32(m, a + 4 * j + 4 * i) == ws[j..][i]
    {
      assert Rd32(m, a + 4 * (j + i)) == ws[j + i];
    }
  }

  lemma HoldsFrame(m: Space, m': Space, a: int, ws: seq<Word>)
    requires 0 <= a && a + 4 * |ws| <= SPACE
    requires Holds(m, a, ws)
    requires forall x :: a <= x < a + 4 * |ws| ==> m'[x] == m[x]
    ensures Holds(m', a, ws)
  {
    forall i | 0 <= i < |ws|
      ensures Rd32(m', a + 4 * i) == ws[i]
    {
      assert Rd32(m, a + 4 * i) == ws[i];
      LoadCongruence(m, m', a + 4 * i);
    }
  }

  /** Memory an interruption must not change: the stack from top up, and whatever lies outside the
      stack and is not the handlers' own. */
  ghost predicate Kept(env: Env, m: Space, m': Space, top: int) {
    forall x :: 0 <= x < SPACE && (if InStack(env, x) then top <= x else x !in env.own) ==> m'[x] == m[x]
  }

  lemma KeptHolds(env: Env, m: Space, m': Space, top: int, a: int, ws: seq<Word>)
    requires env.lo <= top <= a && a + 4 * |ws| <= env.hi <= SPACE
    requires Kept(env, m, m', top) && Holds(m, a, ws)
    ensures Holds(m', a, ws)
  {
    HoldsFrame(m, m', a, ws);
  }

  /** Words just pushed lie on top of those already there. */
  lemma PushHolds(env: Env, s: State, ws: seq<Word>, below: seq<Word>)
    requires Push(env, s, ws).Some?
    requires s.esp + 4 * |below| <= SPACE && Holds(s.mem, s.esp, below)
    ensures var t := Push(env, s, ws).value;
      Holds(t.mem, t.esp, ws + below) && Kept(env, s.mem, t.mem, s.esp)
  {
    var t := Push(env, s, ws).value;
    PutHolds(s.mem, t.esp, ws);
    HoldsFrame(s.mem, t.mem, s.esp, below);
    HoldsConcat(t.mem, t.esp, ws, below);
  }

  // ---- The path on a list of words ------------------------------------------------------------------

  datatype Shadow = Shadow(r: Regs, ws: seq<Word>)

  function Below(top: Word, n: nat): Word { Wrap(top - 4 * n) }

  function ShadowStep(i: Instr, a: Shadow, top: Word): Shadow {
    match i
    case PushImm(w) => a.(ws := [w] + a.ws)
    case PushEax => a.(ws := [a.r.eax] + a.ws)
    case PushEbp => a.(ws := [a.r.ebp] + a.ws)
    case PopEax => if a.ws == [] then a else Shadow(a.r.(eax := a.ws[0]), a.ws[1..])
    case MovAl(b) => a.(r := a.r.(eax := a.r.eax - a.r.eax % 0x100 + b))
    case Pusha => a.(ws := GprWords(a.r, Below(top, |a.ws|)) + a.ws)
    case MovEaxEsp => a.(r := a.r.(eax := Below(top, |a.ws|)))
    case MovEbpEsp => a.(r := a.r.(ebp := Below(top, |a.ws|)))
    case Leave => if a.ws == [] then a else Shadow(a.r.(ebp := a.ws[0]), a.ws[1..])
    case _ => a
  }

  /** Instructions of the path up to the call that do what ShadowStep says. */
  predicate Straight(i: Instr, a: Shadow, top: Word) {
    match i
    case PushImm(_) | PushEax | PushEbp | MovAl(_) | OutAl(_) | Jmp(_) | Pusha | MovEaxEsp | MovEbpEsp => true
    case PopEax => a.ws != []
    case Leave => a.ws != [] && a.r.ebp == Below(top, |a.ws|)
    case _ => false
  }

  /** s is the shadow made concrete: same registers, the words on the stack ending at top. */
  ghost predicate Match(env: Env, s: State, a: Shadow, top: Word) {
    && s.r == a.r && s.esp == top - 4 * |a.ws|
    && env.lo <= s.esp && top <= env.hi <= SPACE
    && Holds(s.mem, s.esp, a.ws)
  }

  lemma MatchPush(env: Env, s: State, a: Shadow, top: Word, ws: seq<Word>)
    requires Match(env, s, a, top) && Push(env, s, ws).Some?
    ensures var t := Push(env, s, ws).value;
      Match(env, t, a.(ws := ws + a.ws), top) && Kept(env, s.mem, t.mem, top)
  {
    PushHolds(env, s, ws, a.ws);
  }

  lemma MatchPop(env: Env, s: State, a: Shadow, top: Word)
    requires Match(env, s, a, top) && a.ws != []
    ensures CanPop(env, s, 1) && Top(s, 0) == a.ws[0]
    ensures Match(env, Advance(s, 4), a.(ws := a.ws[1..]), top)
  {
    assert Rd32(s.mem, s.esp + 4 * 0) == a.ws[0];
    HoldsDrop(s.mem, s.esp, a.ws, 1);
  }

  /** One instruction of the path, on memory and on the list of words. */
  lemma Refines(env: Env, i: Instr, s: State, a: Shadow, top: Word, next: Word, after: Word)
    requires Match(env, s, a, top) && Straight(i, a, top) && Exec(env, i, s, next, after).Some?
    ensures var t := Exec(env, i, s, next, after).value;
      && Match(env, t, ShadowStep(i, a, top), top) && t.eip == next
      && t.cs == s.cs && t.ss == s.ss && t.eflags == s.eflags
      && Kept(env, s.mem, t.mem, top)
  {
    var u := s.(eip := next);
    assert Match(env, u, a, top);
    match i
    case PushImm(w) => MatchPush(env, u, a, top, [w]);
    case PushEax => MatchPush(env, u, a, top, [s.r.eax]);
    case PushEbp => MatchPush(env, u, a, top, [s.r.ebp]);
    case Pusha => MatchPush(env, u, a, top, GprWords(s.r, s.esp));
    case PopEax => MatchPop(env, u, a, top);
    case Leave => MatchPop(env, u.(esp := s.r.ebp), a, top);
    case MovAl(_) | OutAl(_) | Jmp(_) | MovEaxEsp | MovEbpEsp =>
  }
}
