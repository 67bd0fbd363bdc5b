/** The interrupt path up to the call of the C handler, run on a list of words. */
module Paths {
  import opened Memory
  import opened Pic
  import opened Machine
  import opened Stack

  /** Position of the handler: of Ret, or past the end for the bare IRET of vectors 20..31. */
  function RetIdx(p: Prog): nat
    requires IsProg(p)
  {
    if p.Syscall? then 6
    else if Reserved(p.v) then 1
    else if 32 <= p.v < 40 then 10
    else if 40 <= p.v < 48 then 12
    else if HasErrorCode(p.v) then 5
    else 6
  }

  function CodeLength(p: Prog): nat
    requires IsProg(p)
  {
    if p.Syscall? then 9 else if Reserved(p.v) then 1 else RetIdx(p) + 4
  }

  /** The shadow before instruction k, and after it. */
  function ShadowAt(code: seq<Instr>, a: Shadow, top: Word, k: nat): Shadow
    requires k <= |code|
    decreases k, 0
  {
    if k == 0 then a else ShadowAfter(code, a, top, k - 1)
  }

  function ShadowAfter(code: seq<Instr>, a: Shadow, top: Word, k: nat): Shadow
    requires k < |code|
    decreases k, 1
  {
    ShadowStep(code[k], ShadowAt(code, a, top, k), top)
  }

  lemma ShadowNext(code: seq<Instr>, a: Shadow, top: Word, k: nat)
    requires k < |code|
    ensures ShadowAt(code, a, top, k + 1) == ShadowStep(code[k], ShadowAt(code, a, top, k), top)
  {
    assert ShadowAt(code, a, top, k + 1) == ShadowAfter(code, a, top, k);
  }

  ghost predicate StraightTo(code: seq<Instr>, a: Shadow, top: Word, from: nat, to: nat)
    requires to <= |code|
  {
    forall k :: from <= k < to ==> Straight(code[k], ShadowAt(code, a, top, k), top)
  }

  /** Words a stub leaves between the frame and the saved registers. */
  function Header(p: Prog): seq<Word>
    requires IsProg(p)
  {
    if p.Syscall? || Reserved(p.v) then []
    else if HasErrorCode(p.v) then [p.v]
    else [p.v, MINUS_ONE]
  }

  /** int_ctx_t as the handler finds it, for a frame ws pushed below top. */
  function Context(p: Prog, r: Regs, ws: seq<Word>, top: Word): seq<Word>
    requires IsProg(p)
  {
    GprWords(r, Below(top, |Header(p) + ws|)) + (Header(p) + ws)
  }

  /** Port writes and jumps leave registers and stack alone. */
  lemma {:induction false} Idle(code: seq<Instr>, a: Shadow, top: Word, j: nat, n: nat)
    requires j + n <= |code|
    requires forall k :: j <= k < j + n ==> code[k].OutAl? || code[k].Jmp?
    ensures ShadowAt(code, a, top, j + n) == ShadowAt(code, a, top, j)
    ensures StraightTo(code, a, top, j, j + n)
  {
    if n > 0 { Idle(code, a, top, j, n - 1); }
  }

  /** The end-of-interrupt code saves EAX, uses it and restores it. */
  lemma AckSegment(code: seq<Instr>, a: Shadow, top: Word, j: nat, n: nat, b: Byte)
    requires j + n + 3 <= |code|
    requires code[j] == PushEax && code[j + 1] == MovAl(b) && code[j + 2 + n] == PopEax
    requires forall k :: j + 2 <= k < j + 2 + n ==> code[k].OutAl? || code[k].Jmp?
    ensures ShadowAt(code, a, top, j + n + 3) == ShadowAt(code, a, top, j)
    ensures StraightTo(code, a, top, j, j + n + 3)
  {
    Idle(code, a, top, j + 2, n);
    var s := ShadowAt(code, a, top, j);
    var pushed := ShadowAt(code, a, top, j + 1);
    ShadowNext(code, a, top, j);
    var moved := ShadowAt(code, a, top, j + 2);
    ShadowNext(code, a, top, j + 1);
    assert moved.ws == [s.r.eax] + s.ws && moved.r.(eax := s.r.eax) == s.r;
    ShadowNext(code, a, top, j + 2 + n);
    assert ([s.r.eax] + s.ws)[1..] == s.ws;
    assert Straight(code[j], s, top) && Straight(code[j + 1], pushed, top);
    assert Straight(code[j + 2 + n], moved, top);
    Joined(code, a, top, j, j + 2 + n);
  }

  lemma Joined(code: seq<Instr>, a: Shadow, top: Word, j: nat, last: nat)
    requires j + 2 <= last < |code|
    requires Straight(code[j], ShadowAt(code, a, top, j), top)
    requires Straight(code[j + 1], ShadowAt(code, a, top, j + 1), top)
    requires StraightTo(code, a, top, j + 2, last)
    requires Straight(code[last], ShadowAt(code, a, top, last), top)
    ensures StraightTo(code, a, top, j, last + 1)
  {
  }

  /** pusha and mov %esp,%eax. */
  lemma SaveSegment(code: seq<Instr>, a: Shadow, top: Word, j: nat, r: Regs, ws: seq<Word>)
    requires j + 2 <= |code| && code[j] == Pusha && code[j + 1] == MovEaxEsp
    requires ShadowAt(code, a, top, j) == Shadow(r, ws)
    ensures var c := GprWords(r, Below(top, |ws|)) + ws;
      ShadowAt(code, a, top, j + 2) == Shadow(r.(eax := Below(top, |c|)), c)
    ensures StraightTo(code, a, top, j, j + 2)
  {
    var c := GprWords(r, Below(top, |ws|)) + ws;
    assert ShadowAt(code, a, top, j + 1) == Shadow(r, c);
  }

  /** The two pushes and the jump of an ordinary stub. */
  lemma StubSegment(code: seq<Instr>, v: Word, r: Regs, ws: seq<Word>, top: Word)
    requires 3 <= |code| && code[0] == PushImm(MINUS_ONE) && code[1] == PushImm(v) && code[2].Jmp?
    ensures ShadowAt(code, Shadow(r, ws), top, 3) == Shadow(r, [v, MINUS_ONE] + ws)
    ensures StraightTo(code, Shadow(r, ws), top, 0, 3)
  {
    var a := Shadow(r, ws);
    assert ShadowAt(code, a, top, 1) == Shadow(r, [MINUS_ONE] + ws);
    assert [v] + ([MINUS_ONE] + ws) == [v, MINUS_ONE] + ws;
    assert ShadowAt(code, a, top, 2) == Shadow(r, [v, MINUS_ONE] + ws);
  }

  /** A stub that keeps the CPU's error code. */
  lemma CodeSegment(code: seq<Instr>, v: Word, r: Regs, ws: seq<Word>, top: Word)
    requires 2 <= |code| && code[0] == PushImm(v) && code[1].Jmp?
    ensures ShadowAt(code, Shadow(r, ws), top, 2) == Shadow(r, [v] + ws)
    ensures StraightTo(code, Shadow(r, ws), top, 0, 2)
  {
    assert ShadowAt(code, Shadow(r, ws), top, 1) == Shadow(r, [v] + ws);
  }

  /** push ebp; mov ebp,esp; leave: the C prologue undone. */
  lemma PrologueSegment(code: seq<Instr>, r: Regs, ws: seq<Word>, top: Word)
    requires 3 <= |code| && code[0] == PushEbp && code[1] == MovEbpEsp && code[2] == Leave
    ensures ShadowAt(code, Shadow(r, ws), top, 3) == Shadow(r, ws)
    ensures StraightTo(code, Shadow(r, ws), top, 0, 3)
  {
    var a := Shadow(r, ws);
    var b := [r.ebp] + ws;
    assert ShadowAt(code, a, top, 1) == Shadow(r, b);
    assert ShadowAt(code, a, top, 2) == Shadow(r.(ebp := Below(top, |b|)), b);
    assert b[1..] == ws;
  }

  /** The end of every path but the bare IRET's: save, call, restore, drop number and code, return. */
  function CommonCode(): seq<Instr> { [Pusha, MovEaxEsp, Call, Ret, Popa, AddEsp(8), Iret] }

  /** The code of every vector, instruction by instruction, with its numbers. */
  lemma Listing(v: nat)
    requires v < 256
    ensures v in {8, 10, 11, 12, 13, 14, 17} ==> Code(Stub(v)) == [PushImm(v), Jmp(IdtCommon)] + CommonCode()
    ensures (v < 20 && v !in {8, 10, 11, 12, 13, 14, 17}) || v >= 48 ==>
      Code(Stub(v)) == [PushImm(0xffff_ffff), PushImm(v), Jmp(IdtCommon)] + CommonCode()
    ensures 20 <= v < 32 ==> Code(Stub(v)) == [Iret]
    ensures 32 <= v < 40 ==>
      Code(Stub(v)) == [PushImm(0xffff_ffff), PushImm(v), Jmp(AckPic1), PushEax, MovAl(0x20), OutAl(0x20), PopEax] + CommonCode()
    ensures 40 <= v < 48 ==>
      Code(Stub(v)) == [PushImm(0xffff_ffff), PushImm(v), Jmp(AckPic2), PushEax, MovAl(0x20), OutAl(0xa0), Jmp(EoiPic1),
                        OutAl(0x20), PopEax] + CommonCode()
  {
    assert CodeFrom(IdtCommon) == CommonCode();
    if 32 <= v < 40 {
      MasterListing(v);
    } else if 40 <= v < 48 {
      SlaveListing(v);
    }
  }

  lemma MasterListing(v: nat)
    requires 32 <= v < 40
    ensures Code(Stub(v)) == [PushImm(0xffff_ffff), PushImm(v), Jmp(AckPic1), PushEax, MovAl(0x20), OutAl(0x20), PopEax] + CommonCode()
  {
    AckListing();
    assert StubCode(v) == [PushImm(0xffff_ffff), PushImm(v), Jmp(AckPic1)];
    assert Code(Stub(v)) == StubCode(v) + CodeFrom(AckPic1);
  }

  lemma SlaveListing(v: nat)
    requires 40 <= v < 48
    ensures Code(Stub(v)) == [PushImm(0xffff_ffff), PushImm(v), Jmp(AckPic2), PushEax, MovAl(0x20), OutAl(0xa0), Jmp(EoiPic1),
                              OutAl(0x20), PopEax] + CommonCode()
  {
    AckListing();
    assert StubCode(v) == [PushImm(0xffff_ffff), PushImm(v), Jmp(AckPic2)];
    assert Code(Stub(v)) == StubCode(v) + CodeFrom(AckPic2);
  }

  lemma AckListing()
    ensures CodeFrom(AckPic1) == [PushEax, MovAl(0x20), OutAl(0x20), PopEax] + CommonCode()
    ensures CodeFrom(AckPic2) == [PushEax, MovAl(0x20), OutAl(0xa0), Jmp(EoiPic1), OutAl(0x20), PopEax] + CommonCode()
  {
    assert CodeFrom(IdtCommon) == CommonCode();
    assert CodeFrom(EoiPic1) == [OutAl(0x20), PopEax] + CommonCode();
    assert CodeFrom(AckPic1) == [PushEax, MovAl(0x20)] + CodeFrom(EoiPic1);
    assert CodeFrom(AckPic2) == [PushEax, MovAl(0x20), OutAl(0xa0), Jmp(EoiPic1)] + CodeFrom(EoiPic1);
  }

  /** The system call routine: the compiler's prologue undone, then save, call, restore, return. */
  lemma SyscallListing()
    ensures Code(Syscall) == [PushEbp, MovEbpEsp, Leave, Pusha, MovEaxEsp, Call, Ret, Popa, Iret]
  {
  }

  lemma CodeSize(p: Prog)
    requires IsProg(p)
    ensures |Code(p)| == CodeLength(p)
    ensures p.Stub? && Reserved(p.v) ==> Code(p) == [Iret]
  {
  }

  /** The instructions of a program other than the bare IRET, position by position. */
  ghost predicate Shape(code: seq<Instr>, p: Prog)
    requires IsProg(p)
  {
    var n := RetIdx(p);
    && |code| == CodeLength(p) && 5 <= n && n + 3 <= |code|
    && code[n - 3] == Pusha && code[n - 2] == MovEaxEsp && code[n - 1] == Call && code[n] == Ret
    && code[n + 1] == Popa && code[|code| - 1] == Iret
    && (p.Stub? ==> code[n + 2] == AddEsp(8))
    && (if p.Syscall? then code[0] == PushEbp && code[1] == MovEbpEsp && code[2] == Leave
        else if HasErrorCode(p.v) then code[0] == PushImm(p.v) && code[1].Jmp?
        else code[0] == PushImm(MINUS_ONE) && code[1] == PushImm(p.v) && code[2].Jmp?)
    && (p.Stub? && 32 <= p.v < 48 ==>
          code[3] == PushEax && code[4] == MovAl(EOI) && code[n - 4] == PopEax)
    && (p.Stub? && 32 <= p.v < 40 ==> code[5] == OutAl(PIC1))
    && (p.Stub? && 40 <= p.v < 48 ==> code[5] == OutAl(PIC2) && code[6].Jmp? && code[7] == OutAl(PIC1))
  }

  lemma Ack1Shape(v: nat)
    requires 32 <= v < 40
    ensures Shape(Code(Stub(v)), Stub(v))
  {
    MasterListing(v);
  }

  lemma Ack2Shape(v: nat)
    requires 40 <= v < 48
    ensures Shape(Code(Stub(v)), Stub(v))
  {
    SlaveListing(v);
  }

  lemma CodeShape(p: Prog)
    requires IsProg(p) && !(p.Stub? && Reserved(p.v))
    ensures Shape(Code(p), p)
  {
    if p.Stub? && 32 <= p.v < 40 { Ack1Shape(p.v); }
    if p.Stub? && 40 <= p.v < 48 { Ack2Shape(p.v); }
  }

  /** What lies in memory for a program. */
  lemma InMemory(env: Env, p: Prog)
    requires Loaded(env) && IsProg(p)
    ensures |env.code(p)| == CodeLength(p)
    ensures if p.Stub? && Reserved(p.v) then env.code(p) == [Iret] else Shape(env.code(p), p)
  {
    assert env.code(p) == Code(p);
    CodeSize(p);
    if !(p.Stub? && Reserved(p.v)) { CodeShape(p); }
  }

  lemma ShapedStub(code: seq<Instr>, p: Prog, r: Regs, ws: seq<Word>, top: Word)
    requires IsProg(p) && p.Stub? && !Reserved(p.v) && !HasErrorCode(p.v) && Shape(code, p)
    ensures StraightTo(code, Shadow(r, ws), top, 0, RetIdx(p) - 3)
    ensures ShadowAt(code, Shadow(r, ws), top, RetIdx(p) - 3) == Shadow(r, [p.v, MINUS_ONE] + ws)
  {
    StubSegment(code, p.v, r, ws, top);
    if 32 <= p.v < 48 { AckSegment(code, Shadow(r, ws), top, 3, RetIdx(p) - 9, EOI); }
  }

  /** Before the registers are saved. */
  lemma ShapedHeader(code: seq<Instr>, p: Prog, r: Regs, ws: seq<Word>, top: Word)
    requires IsProg(p) && !(p.Stub? && Reserved(p.v)) && Shape(code, p)
    ensures StraightTo(code, Shadow(r, ws), top, 0, RetIdx(p) - 3)
    ensures ShadowAt(code, Shadow(r, ws), top, RetIdx(p) - 3) == Shadow(r, Header(p) + ws)
  {
    if p.Syscall? {
      PrologueSegment(code, r, ws, top);
      assert [] + ws == ws;
    } else if HasErrorCode(p.v) {
      CodeSegment(code, p.v, r, ws, top);
    } else {
      ShapedStub(code, p, r, ws, top);
    }
  }

  lemma {:induction false} ShapedPath(code: seq<Instr>, p: Prog, r: Regs, ws: seq<Word>, top: Word)
    requires IsProg(p) && !(p.Stub? && Reserved(p.v)) && Shape(code, p)
    ensures StraightTo(code, Shadow(r, ws), top, 0, RetIdx(p) - 1)
    ensures var c := Context(p, r, ws, top);
      ShadowAt(code, Shadow(r, ws), top, RetIdx(p) - 1) == Shadow(r.(eax := Below(top, |c|)), c)
  {
    ShapedHeader(code, p, r, ws, top);
    SaveSegment(code, Shadow(r, ws), top, RetIdx(p) - 3, r, Header(p) + ws);
  }

  lemma PathStep(code: seq<Instr>, p: Prog, r: Regs, ws: seq<Word>, top: Word, k: nat)
    requires IsProg(p) && !(p.Stub? && Reserved(p.v)) && Shape(code, p) && k + 1 < RetIdx(p)
    ensures Straight(code[k], ShadowAt(code, Shadow(r, ws), top, k), top)
    ensures ShadowAt(code, Shadow(r, ws), top, k + 1) == ShadowStep(code[k], ShadowAt(code, Shadow(r, ws), top, k), top)
  {
    ShapedPath(code, p, r, ws, top);
    ShadowNext(code, Shadow(r, ws), top, k);
  }

  /** Up to the call every instruction is straight; there the words on the stack are the context,
      EAX points at it and the other registers are the interrupted ones, even when the EAX-clobbering
      end-of-interrupt code has run. */
  lemma PathToCall(p: Prog, r: Regs, ws: seq<Word>, top: Word)
    requires IsProg(p) && !(p.Stub? && Reserved(p.v))
    ensures |Code(p)| == CodeLength(p) && 1 <= RetIdx(p) < |Code(p)|
    ensures StraightTo(Code(p), Shadow(r, ws), top, 0, RetIdx(p) - 1)
    ensures var c := Context(p, r, ws, top);
      ShadowAt(Code(p), Shadow(r, ws), top, RetIdx(p) - 1) == Shadow(r.(eax := Below(top, |c|)), c)
  {
    CodeShape(p);
    ShapedPath(Code(p), p, r, ws, top);
  }
}
