/**
  One instance of each case in which the interpreter departs from the reference machine, on a machine that
  was just reset or differs from it as stated.
 */
module Deviations {
  import opened Wrappers
  import opened Words
  import opened Formats
  import opened Embive
  import opened Machines
  import opened MemoryModel
  import opened Exec
  import opened Meaning
  import opened Equivalence
  import opened Departures
  import opened Executions
  import C = Csr
  import S = Steps
  import R = Riscv
  import Ref = Reference

  /** A reset machine with `x1` in register x1. */
  function Fresh(x1: i32, ram: Memory): Machine {
    Machine(0, RESET_REGISTERS[1 := x1], RESET_CSRS, ram, None)
  }

  /** The outcome is not what the standard says of `r`, an instruction of `n` bytes. */
  predicate Departs(o: Outcome, r: R.Instr, n: nat, m: Machine) {
    !Agrees(o, Ref.Perform(r, n, [], m))
  }

  lemma FreshSound(x1: i32, ram: Memory)
    requires |ram| <= RAM_OFFSET
    ensures Sound([], Fresh(x1, ram))
  {
  }

  /** A divergence shows. */
  lemma Shows(o: Outcome, r: R.Instr, size: Size, m: Machine)
    requires Verdict(o, r, size, [], m) && Diverges(r, size.Bytes(), [], m)
    ensures Departs(o, r, size.Bytes(), m)
  {
    hide Diverges, Agrees, Ref.Perform;
  }

  lemma SmallNumbers()
    ensures Reg(1) == 1 && Reg(0) == 0 && Signed(0) == 0 && Signed(1) == 1 && Nat(0) == 0 && Nat(1) == 1
  {
    assert Nat(1) == 2 * Nat(0) + 1;
  }

  // Control flow.

  /** JALR to address 1. */
  lemma JalrToOddAddress()
    ensures Departs(ExecJalr(TypeI(0, 0, 1, 0), Fresh(0, [])), R.Jalr(0, 0, 1), 4, Fresh(0, []))
  {
    hide Signed, Reg, ExecJalr, Verdict, Departs;
    var t := TypeI(0, 0, 1, 0);
    SmallNumbers();
    FreshSound(0, []);
    JalrVerdict(t, [], Fresh(0, []));
    Shows(ExecJalr(t, Fresh(0, [])), R.Jalr(0, 0, 1), WordSize, Fresh(0, []));
  }

  /** C.JR and C.JALR through x1 = 1. */
  lemma JumpThroughOddRegister()
    ensures Departs(ExecJrMv(TypeCR(1, 0), Fresh(1, [])), R.Jalr(0, 1, 0), 2, Fresh(1, []))
    ensures Departs(ExecEbreakJalrAdd(TypeCR(1, 0), Fresh(1, [])), R.Jalr(1, 1, 0), 2, Fresh(1, []))
  {
    hide Signed, Reg, ExecJrMv, ExecEbreakJalrAdd, Verdict, Departs;
    var t := TypeCR(1, 0);
    SmallNumbers();
    FreshSound(1, []);
    JrMvVerdict(t, [], Fresh(1, []));
    EbreakJalrAddVerdict(t, [], Fresh(1, []));
    Shows(ExecJrMv(t, Fresh(1, [])), R.Jalr(0, 1, 0), HalfSize, Fresh(1, []));
    Shows(ExecEbreakJalrAdd(t, Fresh(1, [])), R.Jalr(1, 1, 0), HalfSize, Fresh(1, []));
  }

  // Writes to x0.

  /** C.MV x0, x1 and C.ADD x0, x1 with x1 = 5. */
  lemma MoveAndAddToZero()
    ensures Departs(ExecJrMv(TypeCR(0, 1), Fresh(5, [])), R.Op(R.ADD, 0, 0, 1), 2, Fresh(5, []))
    ensures Departs(ExecEbreakJalrAdd(TypeCR(0, 1), Fresh(5, [])), R.Op(R.ADD, 0, 0, 1), 2, Fresh(5, []))
  {
    hide Signed, Reg, ExecJrMv, ExecEbreakJalrAdd, Verdict, Departs;
    var t := TypeCR(0, 1);
    SmallNumbers();
    FreshSound(5, []);
    JrMvVerdict(t, [], Fresh(5, []));
    EbreakJalrAddVerdict(t, [], Fresh(5, []));
    Shows(ExecJrMv(t, Fresh(5, [])), R.Op(R.ADD, 0, 0, 1), HalfSize, Fresh(5, []));
    Shows(ExecEbreakJalrAdd(t, Fresh(5, [])), R.Op(R.ADD, 0, 0, 1), HalfSize, Fresh(5, []));
  }

  lemma ReadOne(ram: Memory)
    requires ram == [1]
    ensures Ref.Read([], ram, 0x8000_0000, 1) == Some(1)
  {
    hide Nat;
    SmallNumbers();
    assert Ref.Read([], ram, 0x8000_0001, 0) == Some(0);
  }

  /** LBU x0, 0(x1) where memory holds 1. */
  lemma LoadToZero()
    ensures var m := Fresh(-0x8000_0000, [1]);
            Departs(ExecLoadStore(TypeI(0, 1, 0, 3), [], m), R.Load(R.LBU, 0, 1, 0), 4, m)
  {
    hide Signed, Reg, Ref.Read, Nat, ExecLoadStore, Verdict, Departs;
    var t, m := TypeI(0, 1, 0, 3), Fresh(-0x8000_0000, [1]);
    SmallNumbers();
    FreshSound(-0x8000_0000, [1]);
    ReadOne([1]);
    LoadStoreVerdict(t, [], m);
    Shows(ExecLoadStore(t, [], m), R.Load(R.LBU, 0, 1, 0), WordSize, m);
  }

  // Atomics at address 0x8000_0001.

  const MISALIGNED: i32 := -0x7FFF_FFFF
  const FIVE_BYTES: Memory := [0, 0, 0, 0, 0]

  lemma ReadMisaligned()
    ensures Ref.Read([], FIVE_BYTES, 0x8000_0001, 4).Some?
  {
    hide Nat;
    assert Ref.Read([], FIVE_BYTES, 0x8000_0005, 0) == Some(0);
    assert Ref.Read([], FIVE_BYTES, 0x8000_0004, 1).Some?;
    assert Ref.Read([], FIVE_BYTES, 0x8000_0003, 2).Some?;
  }

  /** LR, SC and AMOADD at a misaligned address. */
  lemma MisalignedAtomics()
    ensures var m := Fresh(MISALIGNED, FIVE_BYTES);
            && Departs(ExecOpAmo(TypeR(0, 1, 0, 18), [], m), R.LoadReserved(0, 1), 4, m)
            && Departs(ExecOpAmo(TypeR(0, 1, 0, 19), [], m), R.StoreConditional(0, 1, 0), 4, m)
            && Departs(ExecOpAmo(TypeR(0, 1, 0, 21), [], m), R.Amo(R.PLUS, 0, 1, 0), 4, m)
  {
    hide Reg, Ref.Read, ExecOpAmo, Verdict, Departs;
    var m := Fresh(MISALIGNED, FIVE_BYTES);
    SmallNumbers();
    FreshSound(MISALIGNED, FIVE_BYTES);
    ReadMisaligned();
    LoadReservedActual(TypeR(0, 1, 0, 18), [], m);
    StoreConditionalActual(TypeR(0, 1, 0, 19), [], m);
    AmoActual(TypeR(0, 1, 0, 21), [], m);
    Decide(ExecOpAmo(TypeR(0, 1, 0, 18), [], m), R.LoadReserved(0, 1), WordSize, [], m);
    Decide(ExecOpAmo(TypeR(0, 1, 0, 19), [], m), R.StoreConditional(0, 1, 0), WordSize, [], m);
    Decide(ExecOpAmo(TypeR(0, 1, 0, 21), [], m), R.Amo(R.PLUS, 0, 1, 0), WordSize, [], m);
    Shows(ExecOpAmo(TypeR(0, 1, 0, 18), [], m), R.LoadReserved(0, 1), WordSize, m);
    Shows(ExecOpAmo(TypeR(0, 1, 0, 19), [], m), R.StoreConditional(0, 1, 0), WordSize, m);
    Shows(ExecOpAmo(TypeR(0, 1, 0, 21), [], m), R.Amo(R.PLUS, 0, 1, 0), WordSize, m);
  }

  // Control and status registers.

  /** Interrupts individually enabled and pending, with the given `mstatus`. */
  function Waiting(mstatus: bv8): Machine {
    Fresh(0, []).(csr := RESET_CSRS.(mstatus := mstatus, mieEmbive := true, mipEmbive := true))
  }

  /** MRET with MPIE clear, which the standard sets; and MRET that enables a pending interrupt. */
  lemma MretDeparts()
    ensures Departs(ExecSystem(TypeI(0, 0, 4, 0), Fresh(0, [])), R.Mret, 4, Fresh(0, []))
    ensures Departs(ExecSystem(TypeI(0, 0, 4, 0), Waiting(0x80)), R.Mret, 4, Waiting(0x80))
  {
    hide ExecSystem, Verdict, Departs;
    var t := TypeI(0, 0, 4, 0);
    SystemVerdict(t, [], Fresh(0, []));
    SystemVerdict(t, [], Waiting(0x80));
    Shows(ExecSystem(t, Fresh(0, [])), R.Mret, WordSize, Fresh(0, []));
    Shows(ExecSystem(t, Waiting(0x80)), R.Mret, WordSize, Waiting(0x80));
  }

  /** A CSR instruction with the given fields departs if it is on the list. */
  lemma CsrDeparts(t: TypeI, r: R.Instr, m: Machine)
    requires t.Encodable() && t.func != 0 && Sound([], m)
    requires SystemMeaning(t) == r && r.Csr? && CsrDiverges(r.csr, r.rd, r.source, r.addr, m)
    ensures Departs(ExecCsr(t, m), r, 4, m)
  {
    hide ExecCsr, Verdict, Departs, Diverges, CsrDiverges, SystemMeaning, TypeI.Encodable, Sound;
    CsrVerdict(t, [], m);
    CsrArm(r, 4, [], m);
    Shows(ExecCsr(t, m), r, WordSize, m);
  }

  /** CSRRWI x0, mstatus, 8 enables an interrupt that is pending. */
  lemma PendingInterruptWaits()
    ensures Departs(ExecCsr(TypeI(0, 8, 0x300, 4), Waiting(0)), R.Csr(R.RW, 0, R.Immediate(8), 0x300), 4, Waiting(0))
  {
    hide Reg, ExecCsr, Departs, Signed;
    SmallNumbers();
    CsrDeparts(TypeI(0, 8, 0x300, 4), R.Csr(R.RW, 0, R.Immediate(8), 0x300), Waiting(0));
  }

  /** CSRRW x0, mhartid, x0 writes a read-only register. */
  lemma ReadOnlyWrite()
    ensures Departs(ExecCsr(TypeI(0, 0, 0xFFFF_FF14, 1), Fresh(0, [])), R.Csr(R.RW, 0, R.Register(0), 0xF14), 4,
                    Fresh(0, []))
  {
    hide Reg, ExecCsr, Departs, Signed;
    SmallNumbers();
    FreshSound(0, []);
    CsrDeparts(TypeI(0, 0, 0xFFFF_FF14, 1), R.Csr(R.RW, 0, R.Register(0), 0xF14), Fresh(0, []));
  }

  /** CSRRS x1, mstatus, x0. */
  lemma StatusRead()
    ensures Departs(ExecCsr(TypeI(1, 0, 0x300, 2), Fresh(0, [])), R.Csr(R.RS, 1, R.Register(0), 0x300), 4, Fresh(0, []))
  {
    hide Reg, ExecCsr, Departs, Signed;
    SmallNumbers();
    FreshSound(0, []);
    CsrDeparts(TypeI(1, 0, 0x300, 2), R.Csr(R.RS, 1, R.Register(0), 0x300), Fresh(0, []));
  }

  /** CSRRS x1, misa, x0. */
  lemma IsaRead()
    ensures Departs(ExecCsr(TypeI(1, 0, 0x301, 2), Fresh(0, [])), R.Csr(R.RS, 1, R.Register(0), 0x301), 4, Fresh(0, []))
  {
    hide Reg, ExecCsr, Departs, Signed;
    SmallNumbers();
    FreshSound(0, []);
    CsrDeparts(TypeI(1, 0, 0x301, 2), R.Csr(R.RS, 1, R.Register(0), 0x301), Fresh(0, []));
  }

  /** CSRRS x0, mepc, x0 after an interrupt at address 1. */
  lemma OddReturnAddressRead()
    ensures var m := Fresh(0, []).(csr := RESET_CSRS.(mepc := 1));
            Departs(ExecCsr(TypeI(0, 0, 0x341, 2), m), R.Csr(R.RS, 0, R.Register(0), 0x341), 4, m)
  {
    hide Reg, ExecCsr, Departs, Signed;
    SmallNumbers();
    var m := Fresh(0, []).(csr := RESET_CSRS.(mepc := 1));
    CsrDeparts(TypeI(0, 0, 0x341, 2), R.Csr(R.RS, 0, R.Register(0), 0x341), m);
  }

  /** CSRRS x1, 0x321, x0, where there is no register. */
  lemma MissingRead()
    ensures Departs(ExecCsr(TypeI(1, 0, 0x321, 2), Fresh(0, [])), R.Csr(R.RS, 1, R.Register(0), 0x321), 4, Fresh(0, []))
  {
    hide Reg, ExecCsr, Departs, Signed;
    SmallNumbers();
    FreshSound(0, []);
    CsrDeparts(TypeI(1, 0, 0x321, 2), R.Csr(R.RS, 1, R.Register(0), 0x321), Fresh(0, []));
  }

  // The host.

  /** An interrupt taken at address 1. */
  lemma InterruptAtOddAddress()
    ensures var m := Fresh(0, []).(pc := 1, csr := RESET_CSRS.(mstatus := 0x08, mieEmbive := true));
            S.Interrupt(m, 0).1 != Ref.TakeInterrupt(m, 0)
  {
    hide C.TrapEntry, Ref.Trap;
    InterruptSame(Fresh(0, []).(pc := 1, csr := RESET_CSRS.(mstatus := 0x08, mieEmbive := true)), 0);
  }

  /** A host write to a reserved word: the reservation is kept. */
  lemma HostWriteToReservedWord()
    ensures var m := Fresh(0, [0, 0, 0, 0]).(reservation := Some(Reservation(0x8000_0000, 0)));
            m.(ram := [1, 0, 0, 0]) != Ref.DeviceWrite(m, [1, 0, 0, 0])
  {
    var m := Fresh(0, [0, 0, 0, 0]).(reservation := Some(Reservation(0x8000_0000, 0)));
    assert Ref.ByteAt([], m.ram, 0x8000_0000) != Ref.ByteAt([], [1, 0, 0, 0], 0x8000_0000);
    HostWriteSame(m, [1, 0, 0, 0]);
  }
}
