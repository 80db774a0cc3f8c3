/** Interrupt delivery from the gate to `iretq`, on a small x86-64 machine: the descriptor table
    that `idt_init` builds, the entry of the processor, the assembly stubs and their common part. */
module Interrupts {
  import opened Machine

  // ----- The descriptor table

  const IDT_ENTRIES: nat := 256

  datatype Gate = Gate(
    offsetLow: Word16, selector: Word16, ist: int, typeAttr: int,
    offsetMid: Word16, offsetHigh: Word32, zero: int)

  /** The split of a handler's address over a gate. */
  function GateTo(handler: Word64, selector: Word16, flags: int): Gate {
    Gate(handler % 0x1_0000, selector, 0, flags, handler / 0x1_0000 % 0x1_0000, handler / 0x1_0000_0000, 0)
  }

  /** The address the processor puts together again. */
  function Target(g: Gate): Word64 {
    var mid: int, high: int := g.offsetMid, g.offsetHigh;
    g.offsetLow + 0x1_0000 * mid + 0x1_0000_0000 * high
  }

  lemma GateRoundTrip(handler: Word64, selector: Word16, flags: int)
    ensures var g := GateTo(handler, selector, flags);
            && Target(g) == handler && g.selector == selector && g.typeAttr == flags && g.ist == 0 && g.zero == 0
  {
  }

  /** What the processor asks of a gate before it delivers an interrupt through it: bit 7 says that
      it is present, and the low half of the byte that it is a 64-bit interrupt gate. */
  predicate Deliverable(g: Gate) {
    g.typeAttr / 0x80 % 2 == 1 && g.typeAttr % 0x20 == 0xE && g.zero == 0
  }

  /** Gates 0 to 15 lead to the stubs, as present interrupt gates of the kernel code segment, for
      the kernel alone and on the interrupted stack. */
  ghost predicate LeadsTo(gates: seq<Gate>, stubs: seq<Word64>) {
    && |gates| == IDT_ENTRIES && |stubs| == 16
    && forall v :: 0 <= v < 16 ==>
         && gates[v].selector == 0x08 && gates[v].typeAttr == 0x8E && gates[v].ist == 0 && gates[v].zero == 0
         && Target(gates[v]) == stubs[v]
  }

  lemma GatesLead(gates: seq<Gate>, stubs: seq<Word64>)
    requires |gates| == IDT_ENTRIES && |stubs| == 16
    requires forall v :: 0 <= v < 16 ==> gates[v] == GateTo(stubs[v], 0x08, 0x8E)
    ensures LeadsTo(gates, stubs)
  {
    hide GateTo, Target;
    forall v | 0 <= v < 16
      ensures gates[v].selector == 0x08 && gates[v].typeAttr == 0x8E && gates[v].ist == 0 && gates[v].zero == 0
      ensures Target(gates[v]) == stubs[v]
    {
      GateRoundTrip(stubs[v], 0x08, 0x8E);
    }
  }

  class Idt {
    const idt: array<Gate>
    var limit: Word16
    var loaded: bool

    constructor ()
      ensures fresh(idt) && idt.Length == IDT_ENTRIES && !loaded
    {
      idt := new Gate[IDT_ENTRIES](_ => Gate(0, 0, 0, 0, 0, 0, 0));
      limit, loaded := 0, false;
    }

    method SetGate(vec: nat, handler: Word64, selector: Word16, flags: int)
      requires idt.Length == IDT_ENTRIES && vec < IDT_ENTRIES
      modifies idt
      ensures idt[..] == old(idt[..])[vec := GateTo(handler, selector, flags)]
    {
      idt[vec] := idt[vec].(
        offsetLow := handler % 0x1_0000,
        offsetMid := handler / 0x1_0000 % 0x1_0000,
        offsetHigh := handler / 0x1_0000_0000);
      idt[vec] := idt[vec].(selector := selector, ist := 0, typeAttr := flags, zero := 0);
    }

    method InitLow(stubs: seq<Word64>)
      requires idt.Length == IDT_ENTRIES && |stubs| == 16
      modifies idt
      ensures forall v :: 0 <= v < 8 ==> idt[v] == GateTo(stubs[v], 0x08, 0x8E)
      ensures forall v :: 0 <= v < IDT_ENTRIES && !(0 <= v < 8) ==> idt[v] == old(idt[v])
    {
      hide GateTo;
      SetGate(0, stubs[0], 0x08, 0x8E);
      SetGate(1, stubs[1], 0x08, 0x8E);
      SetGate(2, stubs[2], 0x08, 0x8E);
      SetGate(3, stubs[3], 0x08, 0x8E);
      SetGate(4, stubs[4], 0x08, 0x8E);
      SetGate(5, stubs[5], 0x08, 0x8E);
      SetGate(6, stubs[6], 0x08, 0x8E);
      SetGate(7, stubs[7], 0x08, 0x8E);
    }

    method InitHigh(stubs: seq<Word64>)
      requires idt.Length == IDT_ENTRIES && |stubs| == 16
      modifies idt
      ensures forall v :: 8 <= v < 16 ==> idt[v] == GateTo(stubs[v], 0x08, 0x8E)
      ensures forall v :: 0 <= v < IDT_ENTRIES && !(8 <= v < 16) ==> idt[v] == old(idt[v])
    {
      hide GateTo;
      SetGate(8, stubs[8], 0x08, 0x8E);
      SetGate(9, stubs[9], 0x08, 0x8E);
      SetGate(10, stubs[10], 0x08, 0x8E);
      SetGate(11, stubs[11], 0x08, 0x8E);
      SetGate(12, stubs[12], 0x08, 0x8E);
      SetGate(13, stubs[13], 0x08, 0x8E);
      SetGate(14, stubs[14], 0x08, 0x8E);
      SetGate(15, stubs[15], 0x08, 0x8E);
    }

    method Init(stubs: seq<Word64>)
      requires idt.Length == IDT_ENTRIES && |stubs| == 16
      modifies this, idt
      ensures LeadsTo(idt[..], stubs) && idt[16..] == old(idt[16..])
      ensures limit == 4095 && loaded
    {
      hide GateTo, Target, LeadsTo;
      limit := 16 * IDT_ENTRIES - 1;
      InitLow(stubs);
      InitHigh(stubs);
      GatesLead(idt[..], stubs);
      loaded := true;
    }
  }

  // ----- The machine

  datatype Registers = Registers(
    rax: Word64, rbx: Word64, rcx: Word64, rdx: Word64, rsi: Word64, rdi: Word64, rbp: Word64,
    r8: Word64, r9: Word64, r10: Word64, r11: Word64, r12: Word64, r13: Word64, r14: Word64, r15: Word64)

  /** The structure that the handlers receive a pointer to. */
  datatype IrqContext = IrqContext(saved: Registers, irqNumber: Word64, errorCode: Word64)

  /** A handler call: which handler, the pointer in rdi, and what is behind the pointer. */
  datatype Call = Call(handler: nat, pointer: Word64, context: IrqContext)

  /** Memory in aligned cells of eight bytes, as far as it has been written. */
  type Memory = map<int, Word64>

  ghost predicate Holds(m: Memory, address: int, value: Word64) {
    address in m && m[address] == value
  }

  /** The field offsets of `irq_context`. */
  ghost predicate IsContext(m: Memory, at: int, c: IrqContext) {
    && HighSaved(m, at, c.saved) && LowSaved(m, at + 56, c.saved)
    && Holds(m, at + 120, c.irqNumber) && Holds(m, at + 128, c.errorCode)
  }

  /** Where each field of the structure lies behind its address. */
  lemma ContextFields(m: Memory, at: int, c: IrqContext)
    requires IsContext(m, at, c)
    ensures forall k :: 0 <= k < 17 ==> at + 8 * k in m
    ensures m[at] == c.saved.r15 && m[at + 8] == c.saved.r14 && m[at + 16] == c.saved.r13 && m[at + 24] == c.saved.r12
    ensures m[at + 32] == c.saved.r11 && m[at + 40] == c.saved.r10 && m[at + 48] == c.saved.r9
    ensures m[at + 56] == c.saved.r8 && m[at + 64] == c.saved.rbp && m[at + 72] == c.saved.rdi
    ensures m[at + 80] == c.saved.rsi && m[at + 88] == c.saved.rdx && m[at + 96] == c.saved.rcx
    ensures m[at + 104] == c.saved.rbx && m[at + 112] == c.saved.rax
    ensures m[at + 120] == c.irqNumber && m[at + 128] == c.errorCode
  {
  }

  ghost predicate HighSaved(m: Memory, at: int, r: Registers) {
    && Holds(m, at, r.r15) && Holds(m, at + 8, r.r14) && Holds(m, at + 16, r.r13) && Holds(m, at + 24, r.r12)
    && Holds(m, at + 32, r.r11) && Holds(m, at + 40, r.r10) && Holds(m, at + 48, r.r9)
  }

  ghost predicate LowSaved(m: Memory, at: int, r: Registers) {
    && Holds(m, at, r.r8) && Holds(m, at + 8, r.rbp) && Holds(m, at + 16, r.rdi) && Holds(m, at + 24, r.rsi)
    && Holds(m, at + 32, r.rdx) && Holds(m, at + 40, r.rcx) && Holds(m, at + 48, r.rbx) && Holds(m, at + 56, r.rax)
  }

  predicate SameHigh(a: Registers, b: Registers) {
    && a.r9 == b.r9 && a.r10 == b.r10 && a.r11 == b.r11 && a.r12 == b.r12
    && a.r13 == b.r13 && a.r14 == b.r14 && a.r15 == b.r15
  }

  predicate SameLow(a: Registers, b: Registers) {
    && a.rax == b.rax && a.rbx == b.rbx && a.rcx == b.rcx && a.rdx == b.rdx
    && a.rsi == b.rsi && a.rdi == b.rdi && a.rbp == b.rbp && a.r8 == b.r8
  }

  /** What `iretq` takes from the stack. */
  datatype Return = Return(rip: Word64, cs: Word64, rflags: Word64, rsp: Word64, ss: Word64)

  ghost predicate IsReturn(m: Memory, at: int, r: Return) {
    && Holds(m, at, r.rip) && Holds(m, at + 8, r.cs) && Holds(m, at + 16, r.rflags)
    && Holds(m, at + 24, r.rsp) && Holds(m, at + 32, r.ss)
  }

  /** Everything a handler must leave alone: the context and the return frame behind it. */
  const FRAME_SIZE: nat := 176

  ghost predicate SameFrame(before: Memory, after: Memory, at: int) {
    forall a :: at <= a < at + FRAME_SIZE && a in before ==> Holds(after, a, before[a])
  }

  /** Memory from an address up is as it was. */
  ghost predicate SameAbove(before: Memory, after: Memory, at: int) {
    forall a :: at <= a && a in before ==> Holds(after, a, before[a])
  }

  /** The exceptions for which the processor pushes an error code, among vectors 0 to 15. */
  predicate PushesError(vec: nat) {
    vec == 8 || 10 <= vec <= 14
  }

  class Cpu {
    var regs: Registers
    var rsp: Word64
    var rip: Word64
    var cs: Word64
    var rflags: Word64
    var ss: Word64
    var zero: bool
    var mem: Memory
    var calls: seq<Call>

    ghost function Interrupted(): Return
      reads this
    {
      Return(rip, cs, rflags, rsp, ss)
    }

    method PushQ(x: Word64)
      requires rsp >= 8
      modifies this`rsp, this`mem
      ensures rsp == old(rsp) - 8 && mem == old(mem)[rsp := x]
    {
      rsp := rsp - 8;
      mem := mem[rsp := x];
    }

    method PopQ() returns (x: Word64)
      requires rsp in mem && rsp + 8 < TWO_64
      modifies this`rsp
      ensures rsp == old(rsp) + 8 && x == mem[old(rsp)]
    {
      x := mem[rsp];
      rsp := rsp + 8;
    }

    /** The processor's own entry through a gate: the stack is aligned to 16 bytes, the return
        frame is pushed, an error code where there is one, and an interrupt gate masks interrupts. */
    method Deliver(vec: nat, gates: seq<Gate>, errorCode: Word64)
      requires vec < |gates| && rsp >= 512 && Deliverable(gates[vec])
      modifies this`rsp, this`mem, this`rip, this`cs, this`rflags
      ensures rip == Target(gates[vec]) && cs == gates[vec].selector
      ensures rflags == (if old(rflags) / 0x200 % 2 == 1 then old(rflags) - 0x200 else old(rflags))
      ensures var top := old(rsp) - old(rsp) % 16 - 40;
              && IsReturn(mem, top, old(Interrupted()))
              && rsp == (if PushesError(vec) then top - 8 else top)
              && (PushesError(vec) ==> Holds(mem, rsp, errorCode))
    {
      var interrupted := rsp;
      rsp := rsp - rsp % 16;
      PushQ(ss);
      PushQ(interrupted);
      PushQ(rflags);
      PushQ(cs);
      PushQ(rip);
      if PushesError(vec) {
        PushQ(errorCode);
      }
      cs, rip := gates[vec].selector, Target(gates[vec]);
      rflags := if rflags / 0x200 % 2 == 1 then rflags - 0x200 else rflags;
    }

    /** The stubs: a dummy error code where the processor pushed none, and the vector. */
    method Stub(vec: nat)
      requires vec < 16 && rsp >= 256
      modifies this`rsp, this`mem
      ensures rsp == old(rsp) - (if vec in {8, 10, 11, 12, 13, 14} then 8 else 16)
      ensures Holds(mem, rsp, vec) && (vec !in {8, 10, 11, 12, 13, 14} ==> Holds(mem, rsp + 8, 0))
      ensures SameAbove(old(mem), mem, old(rsp))
    {
      if vec < 8 { StubLow(vec); } else { StubHigh(vec); }
    }

    method StubLow(vec: nat)
      requires vec < 8 && rsp >= 256
      modifies this`rsp, this`mem
      ensures rsp == old(rsp) - 16 && Holds(mem, rsp, vec) && Holds(mem, rsp + 8, 0)
      ensures SameAbove(old(mem), mem, old(rsp))
    {
      match vec {
        case 0 => PushQ(0); PushQ(0);
        case 1 => PushQ(0); PushQ(1);
        case 2 => PushQ(0); PushQ(2);
        case 3 => PushQ(0); PushQ(3);
        case 4 => PushQ(0); PushQ(4);
        case 5 => PushQ(0); PushQ(5);
        case 6 => PushQ(0); PushQ(6);
        case _ => PushQ(0); PushQ(7);
      }
    }

    method StubHigh(vec: nat)
      requires 8 <= vec < 16 && rsp >= 256
      modifies this`rsp, this`mem
      ensures rsp == old(rsp) - (if vec in {8, 10, 11, 12, 13, 14} then 8 else 16)
      ensures Holds(mem, rsp, vec) && (vec !in {8, 10, 11, 12, 13, 14} ==> Holds(mem, rsp + 8, 0))
      ensures SameAbove(old(mem), mem, old(rsp))
    {
      match vec {
        case 8 => PushQ(8);
        case 9 => PushQ(0); PushQ(9);
        case 10 => PushQ(10);
        case 11 => PushQ(11);
        case 12 => PushQ(12);
        case 13 => PushQ(13);
        case 14 => PushQ(14);
        case _ => PushQ(0); PushQ(15);
      }
    }

    /** Four pushes in a row. */
    method Push4(w: Word64, x: Word64, y: Word64, z: Word64)
      requires rsp >= 32
      modifies this`rsp, this`mem
      ensures rsp == old(rsp) - 32
      ensures Holds(mem, rsp, z) && Holds(mem, rsp + 8, y) && Holds(mem, rsp + 16, x) && Holds(mem, rsp + 24, w)
      ensures SameAbove(old(mem), mem, old(rsp))
    {
      PushQ(w);
      PushQ(x);
      PushQ(y);
      PushQ(z);
    }

    /** The pushes of `irq_common`, in its order. */
    method SaveRegisters(ghost number: Word64, ghost error: Word64)
      requires rsp >= 128 && Holds(mem, rsp, number) && Holds(mem, rsp + 8, error)
      modifies this`rsp, this`mem
      ensures rsp == old(rsp) - 120
      ensures IsContext(mem, rsp, IrqContext(regs, number, error))
      ensures SameAbove(old(mem), mem, old(rsp))
    {
      Push4(regs.rax, regs.rbx, regs.rcx, regs.rdx);
      Push4(regs.rsi, regs.rdi, regs.rbp, regs.r8);
      assert LowSaved(mem, rsp, regs);
      Push4(regs.r9, regs.r10, regs.r11, regs.r12);
      PushQ(regs.r13);
      PushQ(regs.r14);
      PushQ(regs.r15);
    }

    method RestoreHigh(ghost r: Registers)
      requires HighSaved(mem, rsp, r) && rsp + 256 < TWO_64
      modifies this`rsp, this`regs
      ensures rsp == old(rsp) + 56 && SameHigh(regs, r)
    {
      var x := PopQ(); regs := regs.(r15 := x);
      x := PopQ(); regs := regs.(r14 := x);
      x := PopQ(); regs := regs.(r13 := x);
      x := PopQ(); regs := regs.(r12 := x);
      x := PopQ(); regs := regs.(r11 := x);
      x := PopQ(); regs := regs.(r10 := x);
      x := PopQ(); regs := regs.(r9 := x);
    }

    method RestoreLow(ghost r: Registers)
      requires LowSaved(mem, rsp, r) && rsp + 128 < TWO_64
      modifies this`rsp, this`regs
      ensures rsp == old(rsp) + 64 && SameLow(regs, r) && SameHigh(regs, old(regs))
    {
      var x := PopQ(); regs := regs.(r8 := x);
      x := PopQ(); regs := regs.(rbp := x);
      x := PopQ(); regs := regs.(rdi := x);
      x := PopQ(); regs := regs.(rsi := x);
      x := PopQ(); regs := regs.(rdx := x);
      x := PopQ(); regs := regs.(rcx := x);
      x := PopQ(); regs := regs.(rbx := x);
      x := PopQ(); regs := regs.(rax := x);
    }

    /** The pops of `irq_common`, in its order. */
    method RestoreRegisters(ghost c: IrqContext)
      requires IsContext(mem, rsp, c) && rsp + 256 < TWO_64
      modifies this`rsp, this`regs
      ensures rsp == old(rsp) + 120 && regs == c.saved
    {
      RestoreHigh(c.saved);
      RestoreLow(c.saved);
    }

    /** `movq %rsp, %rdi; callq irq<n>_handler`: the handler may do anything to the registers and
        to memory, but for the saved frame, and returns with the stack pointer it was called with. */
    method CallHandler(n: nat, ghost c: IrqContext)
      requires rsp >= 8 && IsContext(mem, rsp, c) && rsp % 16 == 0
      modifies this`regs, this`mem, this`calls
      ensures SameFrame(old(mem), mem, rsp)
      ensures calls == old(calls) + [Call(n, rsp, c)]
    {
      regs := regs.(rdi := rsp);
      var context := ReadContext(regs.rdi, c);
      calls := calls + [Call(n, regs.rdi, context)];
      var frame := map a | a in mem && rsp <= a < rsp + FRAME_SIZE :: mem[a];
      var anything: Memory, others: Registers := *, *;
      mem := anything + frame;
      regs := others;
    }

    /** The structure behind a pointer, field by field. */
    method ReadContext(pointer: Word64, ghost c: IrqContext) returns (context: IrqContext)
      requires IsContext(mem, pointer, c)
      ensures context == c
    {
      context := IrqContext(
        Registers(
          mem[pointer + 112], mem[pointer + 104], mem[pointer + 96], mem[pointer + 88], mem[pointer + 80],
          mem[pointer + 72], mem[pointer + 64], mem[pointer + 56], mem[pointer + 48], mem[pointer + 40],
          mem[pointer + 32], mem[pointer + 24], mem[pointer + 16], mem[pointer + 8], mem[pointer]),
        mem[pointer + 120], mem[pointer + 128]);
    }

    method CmpRax(n: Word64)
      modifies this`zero
      ensures zero <==> regs.rax == n
    {
      zero := regs.rax == n;
    }

    /** The chain of comparisons. A number above 15 reaches no handler. */
    method Dispatch(ghost c: IrqContext)
      requires rsp >= 8 && IsContext(mem, rsp, c) && rsp % 16 == 0
      modifies this`regs, this`mem, this`calls, this`zero
      ensures SameFrame(old(mem), mem, rsp)
      ensures calls == old(calls) + if c.irqNumber < 16 then [Call(c.irqNumber, rsp, c)] else []
    {
      regs := regs.(rax := mem[rsp + 120]);
      CmpRax(0); if zero { CallHandler(0, c); return; }
      CmpRax(1); if zero { CallHandler(1, c); return; }
      CmpRax(2); if zero { CallHandler(2, c); return; }
      CmpRax(3); if zero { CallHandler(3, c); return; }
      CmpRax(4); if zero { CallHandler(4, c); return; }
      CmpRax(5); if zero { CallHandler(5, c); return; }
      CmpRax(6); if zero { CallHandler(6, c); return; }
      CmpRax(7); if zero { CallHandler(7, c); return; }
      CmpRax(8); if zero { CallHandler(8, c); return; }
      CmpRax(9); if zero { CallHandler(9, c); return; }
      CmpRax(10); if zero { CallHandler(10, c); return; }
      CmpRax(11); if zero { CallHandler(11, c); return; }
      CmpRax(12); if zero { CallHandler(12, c); return; }
      CmpRax(13); if zero { CallHandler(13, c); return; }
      CmpRax(14); if zero { CallHandler(14, c); return; }
      CmpRax(15); if zero { CallHandler(15, c); return; }
    }

    method Iretq(ghost r: Return)
      requires IsReturn(mem, rsp, r) && rsp + 64 < TWO_64
      modifies this`rip, this`cs, this`rflags, this`rsp, this`ss
      ensures Interrupted() == r
    {
      rip := PopQ();
      cs := PopQ();
      rflags := PopQ();
      var stack := PopQ();
      ss := PopQ();
      rsp := stack;
    }

    /** `irq_common`, from the state every stub leaves: the vector, an error code, the return frame. */
    method IrqCommon(ghost number: Word64, ghost error: Word64, ghost r: Return)
      requires rsp >= 256 && rsp % 16 == 8 && rsp + 256 < TWO_64
      requires Holds(mem, rsp, number) && Holds(mem, rsp + 8, error) && IsReturn(mem, rsp + 16, r)
      modifies this
      ensures Interrupted() == r && regs == old(regs)
      ensures var c := IrqContext(old(regs), number, error);
              calls == old(calls) + if number < 16 then [Call(number, old(rsp) - 120, c)] else []
    {
      ghost var c := IrqContext(regs, number, error);
      SaveRegisters(number, error);
      assert IsReturn(mem, rsp + 136, r);
      Dispatch(c);
      assert IsContext(mem, rsp, c) && IsReturn(mem, rsp + 136, r);
      RestoreRegisters(c);
      rsp := rsp + 16;
      Iretq(r);
    }

    /** One interrupt, from the interrupted instruction and back to it. */
    method Interrupt(vec: nat, gates: seq<Gate>, stubs: seq<Word64>, errorCode: Word64)
      requires vec < 16 && LeadsTo(gates, stubs)
      requires forall i, j :: 0 <= i < j < 16 ==> stubs[i] != stubs[j]
      requires 1024 <= rsp && rsp + 1024 < TWO_64
      modifies this
      ensures Interrupted() == old(Interrupted()) && regs == old(regs)
      ensures var c := IrqContext(old(regs), vec, if vec in {8, 10, 11, 12, 13, 14} then errorCode else 0);
              var pointer := old(rsp) - old(rsp) % 16 - FRAME_SIZE;
              pointer % 16 == 0 && calls == old(calls) + [Call(vec, pointer, c)]
    {
      ghost var r := Interrupted();
      Deliver(vec, gates, errorCode);
      var entry := EntryAt(stubs, rip);
      Stub(entry);
      IrqCommon(vec, if PushesError(vec) then errorCode else 0, r);
    }
  }

  /** The stub that the code at this address belongs to. */
  method EntryAt(stubs: seq<Word64>, address: Word64) returns (entry: nat)
    requires address in stubs
    ensures entry < |stubs| && stubs[entry] == address
  {
    entry := 0;
    while stubs[entry] != address
      invariant entry < |stubs| && address in stubs[entry..]
      decreases |stubs| - entry
    {
      entry := entry + 1;
    }
  }

  /** From the construction of the table to the return of an interrupt: the handler of the vector
      is called once, with the saved state behind its argument, and the interrupted code goes on
      with everything as it was. */
  method InitThenInterrupt(cpu: Cpu, stubs: seq<Word64>, vec: nat, errorCode: Word64)
    requires vec < 16 && |stubs| == 16
    requires forall i, j :: 0 <= i < j < 16 ==> stubs[i] != stubs[j]
    requires 1024 <= cpu.rsp && cpu.rsp + 1024 < TWO_64
    modifies cpu
    ensures cpu.Interrupted() == old(cpu.Interrupted()) && cpu.regs == old(cpu.regs)
    ensures var c := IrqContext(old(cpu.regs), vec, if vec in {8, 10, 11, 12, 13, 14} then errorCode else 0);
            var pointer := old(cpu.rsp) - old(cpu.rsp) % 16 - 176;
            pointer % 16 == 0 && cpu.calls == old(cpu.calls) + [Call(vec, pointer, c)]
  {
    var table := new Idt();
    table.Init(stubs);
    cpu.Interrupt(vec, table.idt[..], stubs, errorCode);
  }
}
