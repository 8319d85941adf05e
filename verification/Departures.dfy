/**
  What the interpreter does, in the terms of the reference machine: where it departs from the standard,
  the arms below say what happens instead.
 */
module Departures {
  import opened Wrappers
  import opened Words
  import opened Machines
  import R = Riscv
  import Ref = Reference

  /** x0 is read like any other register; index 32 is the zero of encodings that name no register. */
  function Src(m: Machine, r: nat): i32 {
    if r < 32 then m.regs[r] else 0
  }

  const NO_REGISTER: nat := 32

  /** A write that does not spare x0. */
  function SetAny(m: Machine, r: nat, value: i32): Machine {
    if r < 32 then m.(regs := m.regs[r := value]) else m
  }

  /** `mstatus` reads without MPP, and `misa` without extension C. */
  function Shown(c: CsrFile, name: Ref.CsrName): bv32 {
    match name
    case Mstatus => Ref.CsrRead(c, name) & !0x1800
    case Misa => Ref.CsrRead(c, name) & !0x4
    case _ => Ref.CsrRead(c, name)
  }

  function Operand(m: Machine, s: R.CsrSource): bv32 {
    match s
    case Register(r) => Bits(Src(m, r))
    case Immediate(u) => u
  }

  /** Without a write, `mepc` still loses bit 0, which an interrupt at an odd address leaves in it. */
  function CsrAfter(op: R.CsrOp, s: R.CsrSource, name: Ref.CsrName, m: Machine): CsrFile {
    if Ref.Writes(op, s) then Ref.CsrWrite(m.csr, name, Ref.CsrResult(op, Ref.CsrRead(m.csr, name), Operand(m, s)))
    else if name.Mepc? then m.csr.(mepc := Ref.EvenOf(m.csr.mepc))
    else m.csr
  }

  /** Addresses without a register read as zero; writes are never refused, and no interrupt follows them. */
  function ActualCsr(op: R.CsrOp, rd: nat, s: R.CsrSource, addr: bv32, m: Machine): Ref.Effect {
    match Ref.CsrAt(addr)
    case None =>
      if Ignored(addr) then Ref.Done(Ref.SetX(m, rd, 0), 4) else Ref.Effect(Ref.Report.IllegalInstruction, m)
    case Some(name) =>
      Ref.Done(Ref.SetX(m.(csr := CsrAfter(op, s, name, m)), rd, Signed(Shown(m.csr, name))), 4)
  }

  /** Addresses between the counters and event selectors at which there is no register, and the counters. */
  predicate Ignored(addr: bv32) {
    0x321 <= addr <= 0x322 || 0xB00 <= addr <= 0xB02 || 0xB20 <= addr <= 0xB82
  }

  /** MRET: MPIE stays as it was, and no interrupt is taken. */
  function ActualReturn(m: Machine): Machine {
    m.(csr := m.csr.(mstatus := Ref.Status(Ref.Mpie(m.csr), Ref.Mpie(m.csr))), pc := UInt(m.csr.mepc))
  }

  /** The effect of an instruction of `n` bytes. */
  function Actual(r: R.Instr, n: nat, code: Memory, m: Machine): Ref.Effect {
    match r
    case Load(k, rd, rs1, imm) =>
      (match Ref.Read(code, m.ram, Ref.Target(Src(m, rs1), imm), Ref.LoadWidth(k))
       case Some(v) => Ref.Done(SetAny(m, rd, Ref.Loaded(k, v)), n)
       case None => Ref.Effect(Ref.AccessFault, m))
    case Store(k, rs1, rs2, imm) => Ref.DoStore(k, Ref.Target(Src(m, rs1), imm), Src(m, rs2), n, m)
    case OpImm(op, rd, rs1, imm) => Ref.Done(Ref.SetX(m, rd, Ref.Alu(op, Src(m, rs1), Ref.Low32(imm))), n)
    case Op(op, rd, rs1, rs2) =>
      var value := Ref.Alu(op, Src(m, rs1), Src(m, rs2));
      Ref.Done(if op.ADD? && n == 2 then SetAny(m, rd, value) else Ref.SetX(m, rd, value), n)
    case Branch(c, rs1, rs2, imm) =>
      if Ref.Holds(c, Src(m, rs1), Src(m, rs2)) then Ref.Effect(Ref.Continue, m.(pc := Ref.Target(m.pc, imm)))
      else Ref.Done(m, n)
    case Jalr(rd, rs1, imm) =>
      Ref.Effect(Ref.Continue, Ref.SetX(m, rd, Ref.Link(m, n)).(pc := Ref.Target(Src(m, rs1), imm)))
    case LoadReserved(rd, rs1) =>
      var a := ToU32(Src(m, rs1));
      Ref.DoLoadReserved(rd, a, Ref.Read(code, m.ram, a, 4), m)
    case StoreConditional(rd, rs1, rs2) =>
      var a := ToU32(Src(m, rs1));
      Ref.DoStoreConditional(rd, a, Ref.Read(code, m.ram, a, 4), Src(m, rs2), m)
    case Amo(op, rd, rs1, rs2) =>
      var a := ToU32(Src(m, rs1));
      Ref.DoAmo(op, rd, a, Ref.Read(code, m.ram, a, 4), Src(m, rs2), m)
    case Mret => Ref.Effect(Ref.Continue, ActualReturn(m))
    case Csr(op, rd, s, addr) => ActualCsr(op, rd, s, addr, m)
    case _ => Ref.Perform(r, n, code, m)
  }

  /** An interrupt that is taken at an odd address leaves bit 0 of `mepc` set. */
  function ActualInterrupt(m: Machine, value: i32): Machine {
    var after := Ref.TakeInterrupt(m, value);
    if Ref.Mie(m.csr) && m.csr.mieEmbive then after.(csr := after.csr.(mepc := Word(m.pc))) else after
  }

  /** The answer to a system call: whatever the host writes, a reservation is kept. */
  function ActualAnswer(m: Machine, error: i32, value: i32, ram: Memory): Machine {
    Ref.SetX(Ref.SetX(m.(ram := ram), 10, error), 11, value)
  }

  // Where that is not what the standard says.

  /** `mstatus` holds no unsupported bits, and the trap vector is aligned. */
  predicate WellFormedCsrs(c: CsrFile) {
    c.mstatus & 0x77 == 0 && c.mtvec & 0x3 == 0
  }

  /**
    Where the interpreter departs from the reference machine: loads, C.MV and C.ADD write x0; indirect jumps
    keep bit 0 of the target; atomics accept misaligned addresses; MRET does not set MPIE; an interrupt that
    is pending is not taken after MRET or a CSR write; and the CSR instructions that `CsrDiverges` lists.
   */
  predicate Diverges(r: R.Instr, length: nat, code: Memory, m: Machine) {
    match r
    case Load(k, rd, rs1, imm) =>
      rd == 0 && LoadsNonZero(k, Ref.Read(code, m.ram, Ref.Target(Ref.X(m, rs1), imm), Ref.LoadWidth(k)))
    case Op(op, rd, rs1, rs2) => op.ADD? && length == 2 && rd == 0 && Ref.Alu(op, Ref.X(m, rs1), Ref.X(m, rs2)) != 0
    case Jalr(_, rs1, imm) => Ref.Target(Ref.X(m, rs1), imm) % 2 == 1
    case LoadReserved(_, rs1) => ToU32(Ref.X(m, rs1)) % 4 != 0 && Ref.Read(code, m.ram, ToU32(Ref.X(m, rs1)), 4).Some?
    case StoreConditional(_, rs1, _) =>
      ToU32(Ref.X(m, rs1)) % 4 != 0 && Ref.Read(code, m.ram, ToU32(Ref.X(m, rs1)), 4).Some?
    case Amo(_, _, rs1, _) =>
      && ToU32(Ref.X(m, rs1)) % 4 != 0
      && Ref.Read(code, m.ram, ToU32(Ref.X(m, rs1)), 4).Some?
      && Ref.Writable(m.ram, ToU32(Ref.X(m, rs1)), 4)
    case Mret => !Ref.Mpie(m.csr) || (m.csr.mieEmbive && m.csr.mipEmbive)
    case Csr(op, rd, s, addr) => CsrDiverges(op, rd, s, addr, m)
    case _ => false
  }

  /**
    The interpreter answers at addresses without a register; ignores writes to read-only registers; reads
    MPP as 0 and misa without extension C; takes no pending interrupt after a write; and clears bit 0 of
    `mepc` when it reads it.
   */
  predicate CsrDiverges(op: R.CsrOp, rd: nat, s: R.CsrSource, addr: bv32, m: Machine) {
    match Ref.CsrAt(addr)
    case None => Ignored(addr)
    case Some(name) =>
      || (rd != 0 && (name.Mstatus? || name.Misa?))
      || (!Ref.Writes(op, s) && name.Mepc? && m.csr.mepc & 0x1 != 0)
      || (Ref.Writes(op, s)
          && (Ref.ReadOnly(addr) || (Ref.DecidesInterrupts(name)
                  && Ref.Pending(Ref.CsrWritten(op, rd, s, name, m).csr))))
  }

  predicate LoadsNonZero(k: R.LoadKind, read: Option<nat>) {
    read.Some? && Ref.Loaded(k, read.value) != 0
  }

  // The list is exact, on machines with zero in x0.

  lemma SrcSame(m: Machine, r: nat)
    requires m.regs[0] == 0
    ensures Src(m, r) == Ref.X(m, r)
  {
  }

  lemma SetAnyShows(m: Machine, r: nat, value: i32)
    requires m.regs[0] == 0
    ensures SetAny(m, r, value) == Ref.SetX(m, r, value) <==> r != 0 || value == 0
    ensures SetAny(m, r, value).pc == Ref.SetX(m, r, value).pc
  {
    if r == 0 {
      assert SetAny(m, 0, value).regs[0] == value;
      assert value == 0 ==> m.regs[0 := value] == m.regs;
    }
  }

  lemma LoadExactly(r: R.Instr, n: nat, code: Memory, m: Machine)
    requires r.Load? && m.regs[0] == 0
    ensures Actual(r, n, code, m) == Ref.Perform(r, n, code, m) <==> !Diverges(r, n, code, m)
  {
    hide Ref.Read, Ref.Loaded, Ref.Target, SetAny, Ref.SetX, Src, Ref.X;
    SrcSame(m, r.rs1);
    var read := Ref.Read(code, m.ram, Ref.Target(Ref.X(m, r.rs1), r.imm), Ref.LoadWidth(r.load));
    if read.Some? {
      SetAnyShows(m, r.rd, Ref.Loaded(r.load, read.value));
      var value := Ref.Loaded(r.load, read.value);
      StepInjective(SetAny(m, r.rd, value), Ref.SetX(m, r.rd, value), n);
    }
  }

  lemma StepInjective(a: Machine, b: Machine, n: nat)
    requires a.pc == b.pc
    ensures Ref.Done(a, n) == Ref.Done(b, n) <==> a == b
  {
  }

  lemma OpExactly(r: R.Instr, n: nat, code: Memory, m: Machine)
    requires r.Op? && m.regs[0] == 0
    ensures Actual(r, n, code, m) == Ref.Perform(r, n, code, m) <==> !Diverges(r, n, code, m)
  {
    hide Ref.Alu, SetAny, Ref.SetX, Src, Ref.X;
    SrcSame(m, r.rs1);
    SrcSame(m, r.rs2);
    var value := Ref.Alu(r.op, Ref.X(m, r.rs1), Ref.X(m, r.rs2));
    SetAnyShows(m, r.rd, value);
    StepInjective(SetAny(m, r.rd, value), Ref.SetX(m, r.rd, value), n);
  }

  lemma JalrExactly(r: R.Instr, n: nat, code: Memory, m: Machine)
    requires r.Jalr? && m.regs[0] == 0
    ensures Actual(r, n, code, m) == Ref.Perform(r, n, code, m) <==> !Diverges(r, n, code, m)
  {
    hide Ref.SetX, Ref.Link, Ref.Target, Src, Ref.X;
    SrcSame(m, r.rs1);
  }

  /** Alignment decides unless the access faults in any case. */
  lemma AtomicExactly(r: R.Instr, n: nat, code: Memory, m: Machine)
    requires (r.LoadReserved? || r.StoreConditional? || r.Amo?) && m.regs[0] == 0
    ensures Actual(r, n, code, m) == Ref.Perform(r, n, code, m) <==> !Diverges(r, n, code, m)
  {
    hide Ref.Read, Ref.Writable, Ref.Written, Ref.Low32, Ref.AmoValue, ToU32, Ref.SetX, Src, Ref.X;
    match r {
      case LoadReserved(_, rs1) => SrcSame(m, rs1);
      case StoreConditional(_, rs1, rs2) => SrcSame(m, rs1); SrcSame(m, rs2);
      case Amo(_, _, rs1, rs2) => SrcSame(m, rs1); SrcSame(m, rs2);
    }
  }

  lemma TrapDisables(c: CsrFile, pc: u32, value: i32)
    ensures !Ref.Mie(Ref.Trap(c, pc, value))
  {
    hide Word, Bits;
  }

  /** Taking a pending interrupt always shows. */
  lemma DeliverShows(m: Machine)
    ensures Ref.Deliver(m) == m <==> !Ref.Pending(m.csr)
    ensures Ref.Deliver(m).regs == m.regs
    ensures Ref.Mie(Ref.Deliver(m).csr) ==> Ref.Deliver(m) == m
  {
    hide Ref.Trap, UInt, Ref.Mie;
    TrapDisables(m.csr, m.pc, 0);
  }

  lemma ReturnStatus(c: CsrFile)
    ensures Ref.Status(Ref.Mpie(c), Ref.Mpie(c)) == Ref.Status(Ref.Mpie(c), true) <==> Ref.Mpie(c)
    ensures !Ref.Mpie(c) ==> !Ref.Mpie(c.(mstatus := Ref.Status(false, false)))
    ensures Ref.Mie(Ref.Return(c)) == Ref.Mpie(c) && Ref.Mpie(Ref.Return(c))
  {
  }

  /** The status after a trap has MPIE set exactly when MIE was set. */
  lemma MretExactly(n: nat, code: Memory, m: Machine)
    ensures Actual(R.Mret, n, code, m) == Ref.Perform(R.Mret, n, code, m) <==> !Diverges(R.Mret, n, code, m)
  {
    hide Ref.Mie, Ref.Mpie, Ref.Status, Ref.Deliver, UInt;
    ReturnStatus(m.csr);
    DeliverShows(m.(csr := Ref.Return(m.csr), pc := UInt(m.csr.mepc)));
  }

  lemma SignedSame(v: bv32, w: bv32)
    ensures Signed(v) == Signed(w) <==> v == w
  {
    hide Signed, Bits;
    CastsInvert(v, 0);
    CastsInvert(w, 0);
  }

  lemma ShownDiffers(c: CsrFile, name: Ref.CsrName)
    ensures Shown(c, name) == Ref.CsrRead(c, name) <==> !name.Mstatus? && !name.Misa?
  {
  }

  lemma OperandSame(m: Machine, s: R.CsrSource)
    requires m.regs[0] == 0
    ensures Operand(m, s) == Ref.Operand(m, s)
  {
    hide Bits;
  }

  /** Writing two patterns to rd shows their difference unless rd is x0. */
  lemma ValueShows(m: Machine, n: Machine, rd: nat, v: bv32, w: bv32)
    requires m.regs == n.regs && rd < 32
    ensures Ref.SetX(m, rd, Signed(v)).regs == Ref.SetX(n, rd, Signed(w)).regs <==> rd == 0 || v == w
    ensures Ref.SetX(m, rd, Signed(v)) == m.(regs := Ref.SetX(m, rd, Signed(v)).regs)
  {
    hide Signed;
    SignedSame(v, w);
    if rd > 0 {
      assert Ref.SetX(m, rd, Signed(v)).regs[rd] == Signed(v);
      assert Ref.SetX(n, rd, Signed(w)).regs[rd] == Signed(w);
    }
  }

  lemma EvenBit(v: bv32)
    ensures Ref.EvenOf(v) == v <==> v & 0x1 == 0
  {
  }

  lemma CsrReadExactly(op: R.CsrOp, rd: nat, s: R.CsrSource, addr: bv32, name: Ref.CsrName, m: Machine)
    requires rd < 32 && Ref.CsrAt(addr) == Some(name) && !Ref.Writes(op, s)
    ensures ActualCsr(op, rd, s, addr, m) == Ref.DoCsr(op, rd, s, addr, m) <==> !CsrDiverges(op, rd, s, addr, m)
  {
    hide Ref.CsrAt, Ref.Writes, Ref.CsrRead, Shown, Signed, Ref.SetX, Ref.EvenOf, Ref.CsrWrite, Ref.CsrResult, Operand,
      Ref.Operand, Ref.ReadOnly, Ref.Pending, Ref.CsrWritten, Ref.DecidesInterrupts;
    ShownDiffers(m.csr, name);
    EvenBit(m.csr.mepc);
    var after := m.(csr := CsrAfter(op, s, name, m));
    ValueShows(after, m, rd, Shown(m.csr, name), Ref.CsrRead(m.csr, name));
    ValueShows(m, after, rd, Ref.CsrRead(m.csr, name), Shown(m.csr, name));
    assert after.csr == m.csr ==> after == m;
    StepInjective(Ref.SetX(after, rd, Signed(Shown(m.csr, name))),
                  Ref.SetX(m, rd, Signed(Ref.CsrRead(m.csr, name))), 4);
  }

  lemma CsrWriteExactly(op: R.CsrOp, rd: nat, s: R.CsrSource, addr: bv32, name: Ref.CsrName, m: Machine)
    requires m.regs[0] == 0 && rd < 32 && Ref.CsrAt(addr) == Some(name) && Ref.Writes(op, s)
    ensures ActualCsr(op, rd, s, addr, m) == Ref.DoCsr(op, rd, s, addr, m) <==> !CsrDiverges(op, rd, s, addr, m)
  {
    hide Ref.CsrAt, Ref.Writes, Ref.CsrRead, Shown, Signed, Ref.SetX, Ref.EvenOf, Ref.CsrWrite, Ref.CsrResult, Operand,
      Ref.Operand, Ref.ReadOnly, Ref.Pending, Ref.DecidesInterrupts, Ref.Deliver;
    ShownDiffers(m.csr, name);
    OperandSame(m, s);
    var after := m.(csr := CsrAfter(op, s, name, m));
    ValueShows(after, after, rd, Shown(m.csr, name), Ref.CsrRead(m.csr, name));
    ValueShows(after, after, rd, Ref.CsrRead(m.csr, name), Shown(m.csr, name));
    DeliverShows(Ref.CsrWritten(op, rd, s, name, m));
  }

  lemma CsrExactly(op: R.CsrOp, rd: nat, s: R.CsrSource, addr: bv32, m: Machine)
    requires m.regs[0] == 0 && rd < 32
    ensures ActualCsr(op, rd, s, addr, m) == Ref.DoCsr(op, rd, s, addr, m) <==> !CsrDiverges(op, rd, s, addr, m)
  {
    hide Ref.Writes, Ref.SetX, Ignored, Ref.CsrAt;
    match Ref.CsrAt(addr) {
      case None =>
      case Some(name) =>
        if Ref.Writes(op, s) {
          CsrWriteExactly(op, rd, s, addr, name, m);
        } else {
          CsrReadExactly(op, rd, s, addr, name, m);
        }
    }
  }

  lemma CsrArm(r: R.Instr, n: nat, code: Memory, m: Machine)
    requires r.Csr?
    ensures Actual(r, n, code, m) == ActualCsr(r.csr, r.rd, r.source, r.addr, m)
    ensures Ref.Perform(r, n, code, m) == Ref.DoCsr(r.csr, r.rd, r.source, r.addr, m)
    ensures Diverges(r, n, code, m) == CsrDiverges(r.csr, r.rd, r.source, r.addr, m)
  {
    hide ActualCsr, Ref.DoCsr, CsrDiverges;
  }

  lemma PlainExactly(r: R.Instr, n: nat, code: Memory, m: Machine)
    requires m.regs[0] == 0 && !r.Load? && !r.Op? && !r.Jalr? && !r.LoadReserved? && !r.StoreConditional? && !r.Amo?
    requires !r.Mret? && !r.Csr?
    ensures Actual(r, n, code, m) == Ref.Perform(r, n, code, m) && !Diverges(r, n, code, m)
  {
    hide Ref.Alu, Ref.SetX, Ref.Link, Ref.Target, Src, Ref.X, Ref.DoStore, Ref.Holds, Ref.Low32;
    match r {
      case Store(_, rs1, rs2, _) => SrcSame(m, rs1); SrcSame(m, rs2);
      case OpImm(_, _, rs1, _) => SrcSame(m, rs1);
      case Branch(_, rs1, rs2, _) => SrcSame(m, rs1); SrcSame(m, rs2);
      case _ =>
    }
  }

  /** With zero in x0 the interpreter does what the standard says exactly where `Diverges` does not hold. */
  lemma DivergesExactly(r: R.Instr, n: nat, code: Memory, m: Machine)
    requires m.regs[0] == 0 && (r.Csr? ==> r.rd < 32)
    ensures Actual(r, n, code, m) == Ref.Perform(r, n, code, m) <==> !Diverges(r, n, code, m)
  {
    hide Actual, Ref.Perform, Diverges, ActualCsr, Ref.DoCsr, CsrDiverges;
    match r {
      case Load(_, _, _, _) => LoadExactly(r, n, code, m);
      case Op(_, _, _, _) => OpExactly(r, n, code, m);
      case Jalr(_, _, _) => JalrExactly(r, n, code, m);
      case LoadReserved(_, _) => AtomicExactly(r, n, code, m);
      case StoreConditional(_, _, _) => AtomicExactly(r, n, code, m);
      case Amo(_, _, _, _) => AtomicExactly(r, n, code, m);
      case Mret => MretExactly(n, code, m);
      case Csr(op, rd, s, addr) => CsrArm(r, n, code, m); CsrExactly(op, rd, s, addr, m);
      case _ => PlainExactly(r, n, code, m);
    }
  }
}
