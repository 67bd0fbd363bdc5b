/** Kernel start-up: the tables and controllers it programs are the ones the guarantees rest on. */
module Boot {
  import opened Memory
  import opened Pic
  import opened Descriptors
  import opened Machine

  // ---- Placement of the stubs -----------------------------------------------------------------------------

  /** Encoded size of a block: any choice of encodings that gives every instruction 1 to 5 bytes. */
  function BlockSize(block: seq<Instr>, size: Instr -> nat): nat {
    if block == [] then 0 else size(block[0]) + BlockSize(block[1..], size)
  }

  ghost predicate Encodes(size: Instr -> nat) {
    forall i :: 1 <= size(i) <= 5
  }

  lemma {:induction false} BlockBound(block: seq<Instr>, size: Instr -> nat)
    requires Encodes(size)
    ensures |block| <= BlockSize(block, size) <= 5 * |block|
  {
    if block != [] { BlockBound(block[1..], size); }
  }

  /** What runs through the gate of v: the stub placed by ".align 16" at the address the gate holds,
      and it pushes v (or, for 20..31, is a bare IRET), however the assembler encodes it. */
  lemma VectorRouting(idt: seq<Gate>, trampoline: Word, sizes: seq<nat>, size: Instr -> nat, v: nat)
    requires |idt| == IDT_NR_DESC && v < IDT_NR_DESC && Encodes(size)
    requires trampoline % 16 == 0 && trampoline + 256 * 16 <= SPACE
    requires |sizes| == IDT_NR_DESC && forall k :: 0 <= k < IDT_NR_DESC ==> sizes[k] == BlockSize(StubCode(k), size)
    requires GateTo(idt[v], trampoline + 16 * v, 0)
    ensures Offset(idt[v]) == Placed(trampoline, sizes, v)
    ensures if Reserved(v) then StubCode(v) == [Iret] else PushImm(v) in StubCode(v)
  {
    forall k | 0 <= k < |sizes|
      ensures 1 <= sizes[k] <= IDT_ISR_ALGN
    {
      BlockBound(StubCode(k), size);
      assert 1 <= |StubCode(k)| <= 3;
    }
    AlignedPlacement(trampoline, sizes, v);
  }

  // ---- Initialisation -------------------------------------------------------------------------------------

  /** What the linker and the choice of stacks provide. */
  ghost predicate Sited(env: Env) {
    && env.trampoline + IDT_NR_DESC * IDT_ISR_ALGN <= SPACE
    && !(env.trampoline <= env.syscallIsr < env.trampoline + IDT_NR_DESC * IDT_ISR_ALGN)
    && Loaded(env)
    && env.at(Syscall, 0) == env.syscallIsr
    && (forall v :: 0 <= v < IDT_NR_DESC ==> env.at(Stub(v), 0) == env.trampoline + IDT_ISR_ALGN * v)
    && env.lo <= env.hi <= SPACE
    && (forall a :: a in env.own ==> !InStack(env, a))
    && (forall f: Word, x: Word :: IfOn(env.addFlags(f, x)) == IfOn(f))
  }

  lemma SitedIsValid(site: Env, idt: seq<Gate>, ebp: Word, syscall: bool)
    requires Sited(site) && site.lo <= ebp <= site.hi && |idt| == IDT_NR_DESC
    requires forall v :: 0 <= v < IDT_NR_DESC ==>
      if v == 48 && syscall then GateTo(idt[v], site.syscallIsr, 3) else GateTo(idt[v], site.trampoline + IDT_ISR_ALGN * v, 0)
    ensures Valid(site.(idt := idt, esp0 := ebp, ss0 := KERNEL_DATA, syscall := syscall))
  {
  }

  /** intr_init and, for the system call exercise, update_idt. */
  method InstallIdt(idt: array<Gate>, trampoline: Word, syscallIsr: Word, syscall: bool)
    requires idt.Length == IDT_NR_DESC && trampoline + IDT_NR_DESC * IDT_ISR_ALGN <= SPACE
    modifies idt
    ensures forall v :: 0 <= v < IDT_NR_DESC ==>
      if v == 48 && syscall then GateTo(idt[v], syscallIsr, 3) else GateTo(idt[v], trampoline + IDT_ISR_ALGN * v, 0)
    ensures forall v :: 0 <= v < 256 && !(v == 48 && syscall) ==> GateImage(idt[v], 8, trampoline + 16 * v, 0x8e00)
    ensures syscall ==> GateImage(idt[48], 8, syscallIsr, 0xee00)
  {
    IntrInit(idt, trampoline);
    if syscall { UpdateIdt(idt, syscallIsr); }
  }

  /** start() and, for the system call exercise, the GDT, TSS and gate 48 that tp() sets up: the stack
      the processor switches to is the one it finds through the task register. */
  method Start(ports: Ports, idt: array<Gate>, mem: array<Byte>, site: Env, gdt: Word, tss: Word, ebp: Word, syscall: bool)
    returns (env: Env)
    requires idt.Length == IDT_NR_DESC && mem.Length == SPACE && Sited(site) && site.lo <= ebp <= site.hi
    requires gdt + 48 <= SPACE && tss + TSS_SIZE <= SPACE && (gdt + 48 <= tss || tss + TSS_SIZE <= gdt)
    modifies ports, idt, mem
    ensures Valid(env) && env == site.(idt := idt[..], esp0 := ebp, ss0 := KERNEL_DATA, syscall := syscall)
    ensures env.ss0 == 16 && RingZeroStack(mem[..], gdt, 40) == (ebp, 16)
    ensures GdtImage(mem[..], gdt, tss, if syscall then 1 else 0)
    ensures forall v :: 0 <= v < 256 && !(v == 48 && syscall) ==> GateImage(idt[v], 8, site.trampoline + 16 * v, 0x8e00)
    ensures syscall ==> GateImage(idt[48], 8, site.syscallIsr, 0xee00)
    ensures Configured(ports.pics)
    ensures ports.pics.master.isr == old(ports.pics).master.isr && ports.pics.slave.isr == old(ports.pics).slave.isr
  {
    ports.PicInit();
    InstallIdt(idt, site.trampoline, site.syscallIsr, syscall);
    InitTask(mem, gdt, tss, if syscall then 1 else 0, ebp);
    env := site.(idt := idt[..], esp0 := ebp, ss0 := KERNEL_DATA, syscall := syscall);
    SitedIsValid(site, idt[..], ebp, syscall);
  }
}
