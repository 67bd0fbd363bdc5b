/** The processor with its registers and memory updated in place, executing the interrupt path. Every
    method is tied to the transition system the theorems speak of. */
module Processor {
  import opened Memory
  import opened Wrappers
  import opened Pic
  import opened Descriptors
  import opened Machine

  class Cpu {
    var eax: Word
    var ecx: Word
    var edx: Word
    var ebx: Word
    var ebp: Word
    var esi: Word
    var edi: Word
    var esp: Word
    var eip: Word
    var cs: U16
    var ss: U16
    var eflags: Word
    var pics: Pair
    const mem: array<Byte>

    constructor (m: array<Byte>, s: State)
      requires m.Length == SPACE && m[..] == s.mem
      ensures mem == m && View() == s
    {
      mem := m;
      eax, ecx, edx, ebx, ebp, esi, edi := s.r.eax, s.r.ecx, s.r.edx, s.r.ebx, s.r.ebp, s.r.esi, s.r.edi;
      esp, eip, cs, ss, eflags, pics := s.esp, s.eip, s.cs, s.ss, s.eflags, s.pics;
    }

    function Gpr(): Regs
      reads this
    {
      Regs(eax, ecx, edx, ebx, ebp, esi, edi)
    }

    function View(): State
      requires mem.Length == SPACE
      reads this, mem
    {
      State(Gpr(), esp, eip, cs, ss, eflags, mem[..], pics)
    }

    method SetGpr(r: Regs)
      requires mem.Length == SPACE
      modifies this`eax, this`ecx, this`edx, this`ebx, this`ebp, this`esi, this`edi
      ensures View() == old(View()).(r := r)
    {
      eax, ecx, edx, ebx, ebp, esi, edi := r.eax, r.ecx, r.edx, r.ebx, r.ebp, r.esi, r.edi;
      assert mem[..] == old(mem[..]);
    }

    method SetStack(newEsp: Word, newSs: U16)
      requires mem.Length == SPACE
      modifies this`esp, this`ss
      ensures View() == old(View()).(esp := newEsp, ss := newSs)
    {
      esp, ss := newEsp, newSs;
      assert mem[..] == old(mem[..]);
    }

    method SetControl(newEip: Word, newCs: U16, newFlags: Word)
      requires mem.Length == SPACE
      modifies this`eip, this`cs, this`eflags
      ensures View() == old(View()).(eip := newEip, cs := newCs, eflags := newFlags)
    {
      eip, cs, eflags := newEip, newCs, newFlags;
      assert mem[..] == old(mem[..]);
    }

    /** Successive pushes, lowest address first in ws. */
    method PushWords(env: Env, ws: seq<Word>) returns (ok: bool)
      requires mem.Length == SPACE
      modifies this`esp, mem
      ensures ok <==> Push(env, old(View()), ws).Some?
      ensures View() == if ok then Push(env, old(View()), ws).value else old(View())
    {
      ok := Room(env, esp, |ws|);
      if ok {
        var a := esp - 4 * |ws|;
        var i := 0;
        ghost var m0 := mem[..];
        assert ws[0..] == ws;
        while i < |ws|
          invariant 0 <= i <= |ws|
          invariant Put(mem[..], a + 4 * i, ws[i..]) == Put(m0, a, ws)
        {
          assert ws[i..][1..] == ws[i + 1..];
          StoreDword(mem, a + 4 * i, ws[i]);
          i := i + 1;
        }
        esp := a;
      }
    }

    method Pop(env: Env) returns (ok: bool, w: Word)
      requires mem.Length == SPACE
      modifies this`esp
      ensures ok <==> CanPop(env, old(View()), 1)
      ensures View() == if ok then Advance(old(View()), 4) else old(View())
      ensures ok ==> w == Top(old(View()), 0)
    {
      ok := CanPop(env, View(), 1);
      w := 0;
      if ok {
        w := LoadDword(mem, esp);
        esp := Wrap(esp + 4);
      }
    }

    method PopEaxInstr(env: Env) returns (ok: bool)
      requires mem.Length == SPACE
      modifies this`esp, this`eax
      ensures ok <==> PopEaxFrom(env, old(View())).Some?
      ensures View() == if ok then PopEaxFrom(env, old(View())).value else old(View())
    {
      var w;
      ok, w := Pop(env);
      if ok { eax := w; }
    }

    /** The i-th word on the stack. */
    method Peek(i: nat) returns (w: Word)
      requires mem.Length == SPACE && esp + 4 * i + 4 <= SPACE
      ensures w == Top(View(), i)
    {
      w := LoadDword(mem, esp + 4 * i);
    }

    method PopaInstr(env: Env) returns (ok: bool)
      requires mem.Length == SPACE
      modifies this
      ensures ok <==> PopaFrom(env, old(View())).Some?
      ensures View() == if ok then PopaFrom(env, old(View())).value else old(View())
    {
      ok := CanPop(env, View(), 8);
      if ok {
        var w0 := Peek(0);
        var w1 := Peek(1);
        var w2 := Peek(2);
        var w4 := Peek(4);
        var w5 := Peek(5);
        var w6 := Peek(6);
        var w7 := Peek(7);
        SetGpr(Regs(w7, w6, w5, w4, w2, w1, w0));
        SetStack(Wrap(esp + 32), ss);
      }
    }

    method PopEbpInstr(env: Env) returns (ok: bool)
      requires mem.Length == SPACE
      modifies this`esp, this`ebp
      ensures ok <==> PopEbpFrom(env, old(View())).Some?
      ensures View() == if ok then PopEbpFrom(env, old(View())).value else old(View())
    {
      var w;
      ok, w := Pop(env);
      if ok { ebp := w; }
    }

    method IretInstr(env: Env) returns (ok: bool)
      requires mem.Length == SPACE
      modifies this
      ensures ok <==> IretFrom(env, old(View())).Some?
      ensures View() == if ok then IretFrom(env, old(View())).value else old(View())
    {
      ok := CanPop(env, View(), 3);
      if ok {
        var newEip := Peek(0);
        var w := Peek(1);
        var newCs := w % 0x1_0000;
        var newFlags := Peek(2);
        if newCs % 4 < cs % 4 {
          ok := false;
        } else if newCs % 4 == cs % 4 {
          SetStack(Wrap(esp + 12), ss);
          SetControl(newEip, newCs, newFlags);
        } else {
          ok := CanPop(env, View(), 5);
          if ok {
            var newEsp := Peek(3);
            w := Peek(4);
            SetStack(newEsp, w % 0x1_0000);
            SetControl(newEip, newCs, newFlags);
          }
        }
      }
    }

    method SetPics(p: Pair)
      requires mem.Length == SPACE
      modifies this`pics
      ensures View() == old(View()).(pics := p)
    {
      pics := p;
      assert mem[..] == old(mem[..]);
    }

    /** The instructions that push: what they push, next being already in EIP. */
    method PushInstr(env: Env, i: Instr, after: Word) returns (ok: bool)
      requires mem.Length == SPACE
      requires i.PushImm? || i.PushEax? || i.PushEbp? || i.Pushf? || i.Pusha? || i.Call?
      modifies this, mem
      ensures ok <==> ExecOn(env, i, old(View()), after).Some?
      ensures ok ==> View() == ExecOn(env, i, old(View()), after).value
    {
      match i
      case PushImm(w) => ok := PushWords(env, [w]);
      case PushEax => ok := PushWords(env, [eax]);
      case PushEbp => ok := PushWords(env, [ebp]);
      case Pushf => ok := PushWords(env, [eflags]);
      case Pusha => ok := PushWords(env, GprWords(Gpr(), esp));
      case Call => ok := PushWords(env, [after]);
    }

    /** One instruction with EIP already past it. */
    method ExecuteOn(env: Env, i: Instr, after: Word) returns (ok: bool)
      requires mem.Length == SPACE
      modifies this, mem
      ensures ok <==> ExecOn(env, i, old(View()), after).Some?
      ensures ok ==> View() == ExecOn(env, i, old(View()), after).value
    {
      ok := true;
      if i.PopEax? {
        ok := PopEaxInstr(env);
      } else if i.PopEbp? {
        ok := PopEbpInstr(env);
      } else if i.Popa? {
        ok := PopaInstr(env);
      } else if i.Leave? {
        LeaveIs(env, View(), eip, after);
        SetStack(ebp, ss);
        ok := PopEbpInstr(env);
      } else if i.MovAl? {
        SetGpr(Gpr().(eax := eax - eax % 0x100 + i.b));
      } else if i.OutAl? {
        SetPics(PortWrite(pics, i.port, eax % 0x100));
      } else if i.MovEaxEsp? {
        SetGpr(Gpr().(eax := esp));
      } else if i.MovEbpEsp? {
        SetGpr(Gpr().(ebp := esp));
      } else if i.AddEsp? {
        SetStack(Wrap(esp + i.n), ss);
        SetControl(eip, cs, env.addFlags(eflags, esp));
      } else if i.Ret? {
        var w;
        ok, w := Pop(env);
        if ok { SetControl(w, cs, eflags); }
      } else if i.Iret? {
        ok := IretInstr(env);
      } else if !i.Jmp? {
        ok := PushInstr(env, i, after);
      }
    }

    /** One instruction, as Exec says. */
    method Execute(env: Env, i: Instr, next: Word, after: Word) returns (ok: bool)
      requires mem.Length == SPACE
      modifies this, mem
      ensures ok <==> Exec(env, i, old(View()), next, after).Some?
      ensures ok ==> View() == Exec(env, i, old(View()), next, after).value
    {
      ExecIsOn(env, i, View(), next, after);
      SetControl(next, cs, eflags);
      ok := ExecuteOn(env, i, after);
    }

    /** The stack switch, the pushes and the jump of hardware delivery. */
    method EnterGate(env: Env, gate: Gate, ws: seq<Word>) returns (ok: bool)
      requires mem.Length == SPACE
      modifies this, mem
      ensures ok <==> Room(env, FrameTop(env, old(View())), |ws|)
      ensures ok ==> View() == Enter(env, old(View()), gate, ws)
    {
      ok := Room(env, FrameTop(env, View()), |ws|);
      if ok {
        if Cpl(View()) == 3 { SetStack(env.esp0, env.ss0); }
        ok := PushWords(env, ws);
        SetControl(Offset(gate), gate.selector, GateFlags(eflags));
      }
    }

    /** Hardware delivery through the gate of a vector. */
    method Interrupt(env: Env, vector: nat, code: seq<Word>, ghost k: Kernel, ghost irq: Option<Irq>) returns (ok: bool)
      requires mem.Length == SPACE && vector < |env.idt| && k.cpu == View()
      modifies this, mem
      ensures ok <==> Machine.Deliver(env, k, old(View()), vector, code, irq).Running?
      ensures ok ==> View() == Machine.Deliver(env, k, old(View()), vector, code, irq).k.cpu
    {
      var gate := env.idt[vector];
      ok := gate.p == 1 && gate.kind == INTR_GATE_32;
      if ok { ok := EnterGate(env, gate, Frame(View(), code)); }
    }
  }
}
