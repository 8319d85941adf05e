/**
  What each Embive instruction does (src/interpreter/decode_execute and below), as a function from a
  machine to the outcome of a step.  The methods of `Interpreter` are proved to compute these functions.
 */
module Exec {
  import opened Wrappers
  import opened Words
  import opened Formats
  import opened Embive
  import opened Machines
  import opened MemoryModel
  import opened Csr

  function Get(m: Machine, r: bv8): i32
    requires r < 32
  {
    RegBound(r);
    m.regs[Reg(r)]
  }

  function Put(m: Machine, r: bv8, value: i32): Machine
    requires r < 32
  {
    RegBound(r);
    m.(regs := m.regs[Reg(r) := value])
  }

  /** `Put`, except that writes to x0 are skipped. */
  function PutUnlessZero(m: Machine, r: bv8, value: i32): Machine
    requires r < 32
  {
    if r != 0 then Put(m, r, value) else m
  }

  function Advance(m: Machine, size: Size): Machine {
    m.(pc := WrapU32(m.pc + size.Bytes()))
  }

  function Next(m: Machine, size: Size): Outcome {
    Outcome(Success(Running), Advance(m, size))
  }

  /** A relative jump. */
  function JumpBy(m: Machine, imm: bv32): Machine {
    m.(pc := WrapU32(m.pc + Signed(imm)))
  }

  function Fault(m: Machine, error: Error): Outcome {
    Outcome(Failure(error), m)
  }

  // Arithmetic.

  /** The function constants 0 to 17 of `OpAmo`. */
  function Alu(func: bv16, rs1: i32, rs2: i32): Option<i32> {
    match func
    case 0 => Some(WrapI32(rs1 + rs2))
    case 1 => Some(WrapI32(rs1 - rs2))
    case 2 => Some(WrapI32(rs1 * Pow2(ToU32(rs2) % 32)))
    case 3 => Some(if rs1 < rs2 then 1 else 0)
    case 4 => Some(if ToU32(rs1) < ToU32(rs2) then 1 else 0)
    case 5 => Some(Xor(rs1, rs2))
    case 6 => Some(ShiftRightLogical(rs1, ToU32(rs2) % 32))
    case 7 => Some(ShiftRightArithmetic(rs1, ToU32(rs2) % 32))
    case 8 => Some(Or(rs1, rs2))
    case 9 => Some(And(rs1, rs2))
    case 10 => Some(WrapI32(rs1 * rs2))
    case 11 => Some(ToI32(WrapU32(WrapI64(rs1 * rs2) / 0x1_0000_0000)))
    case 12 => Some(ToI32(WrapU32(WrapI64(rs1 * ToU32(rs2)) / 0x1_0000_0000)))
    case 13 => Some(ToI32(WrapU32(WrapU64(ToU32(rs1) * ToU32(rs2)) / 0x1_0000_0000)))
    case 14 => Some(if rs2 == 0 then -1 else WrapI32(TruncDiv(rs1, rs2)))
    case 15 => Some(if rs2 == 0 then -1 else ToI32(WrapU32(ToU32(rs1) / ToU32(rs2))))
    case 16 => Some(if rs2 == 0 then rs1 else WrapI32(rs1 - rs2 * TruncDiv(rs1, rs2)))
    case 17 => Some(if rs2 == 0 then rs1 else ToI32(WrapU32(ToU32(rs1) % ToU32(rs2))))
    case _ => None
  }

  /** The value that the atomic functions 20 to 28 store. */
  function AmoResult(func: bv16, value: i32, rs2: i32): Option<i32> {
    match func
    case 20 => Some(rs2)
    case 21 => Some(WrapI32(value + rs2))
    case 22 => Some(Xor(value, rs2))
    case 23 => Some(And(value, rs2))
    case 24 => Some(Or(value, rs2))
    case 25 => Some(if value <= rs2 then value else rs2)
    case 26 => Some(if value >= rs2 then value else rs2)
    case 27 => Some(if ToU32(value) <= ToU32(rs2) then value else rs2)
    case 28 => Some(if ToU32(value) >= ToU32(rs2) then value else rs2)
    case _ => None
  }

  function ExecOpAmo(t: TypeR, code: Memory, m: Machine): Outcome
    requires t.Encodable()
  {
    var rs1, rs2 := Get(m, t.rs1), Get(m, t.rs2);
    match Alu(t.func, rs1, rs2)
    case Some(result) => Next(PutUnlessZero(m, t.rd, result), WordSize)
    case None =>
      match LoadWord(code, m.ram, ToU32(rs1))
      case Failure(e) => Fault(m, e)
      case Success(word) => ExecAtomic(t, ToU32(rs1), Signed(word), rs2, m)
  }

  /** An atomic operation on `value`, which was just loaded from `address`. */
  function ExecAtomic(t: TypeR, address: u32, value: i32, rs2: i32, m: Machine): Outcome
    requires t.Encodable()
  {
    if t.func == 18 then
      Next(PutUnlessZero(m.(reservation := Some(Reservation(address, value))), t.rd, value), WordSize)
    else if t.func == 19 then
      var taken := m.(reservation := None);
      if m.reservation == Some(Reservation(address, value)) then
        match StoreWord(m.ram, address, rs2)
        case Failure(e) => Fault(taken, e)
        case Success(ram) => Next(PutUnlessZero(taken.(ram := ram), t.rd, 0), WordSize)
      else
        Next(PutUnlessZero(taken, t.rd, 1), WordSize)
    else
      match AmoResult(t.func, value, rs2)
      case None => Fault(m, InvalidInstruction(m.pc))
      case Some(stored) =>
        match StoreWord(m.ram, address, stored)
        case Failure(e) => Fault(m, e)
        case Success(ram) => Next(PutUnlessZero(m.(ram := ram), t.rd, value), WordSize)
  }

  function OpImmResult(t: TypeI, rs1: i32): i32 {
    match t.func
    case 0 => WrapI32(rs1 + Signed(t.imm))
    case 1 => WrapI32(rs1 * Pow2(UInt(t.imm & 0x1F)))
    case 2 => if rs1 < Signed(t.imm) then 1 else 0
    case 3 => if ToU32(rs1) < ToU32(Signed(t.imm)) then 1 else 0
    case 4 => Xor(rs1, Signed(t.imm))
    case 5 =>
      if t.imm & 0x400 != 0 then
        ShiftRightArithmetic(rs1, UInt(t.imm & 0x1F))
      else
        ShiftRightLogical(rs1, UInt(t.imm & 0x1F))
    case 6 => Or(rs1, Signed(t.imm))
    case _ => And(rs1, Signed(t.imm))
  }

  function ExecOpImm(t: TypeI, m: Machine): Outcome
    requires t.Encodable()
  {
    Next(PutUnlessZero(m, t.rdRs2, OpImmResult(t, Get(m, t.rs1))), WordSize)
  }

  // Memory.

  /** The value that a load function (0 to 4) puts in the register. */
  function LoadValue(func: bv8, code: Memory, ram: Memory, address: u32): Result<i32, Error> {
    match func
    case 0 => (var b :- LoadByte(code, ram, address); Success(Signed(AsI8(b))))
    case 1 => (var h :- LoadHalf(code, ram, address); Success(Signed(AsI16(h))))
    case 2 => (var w :- LoadWord(code, ram, address); Success(Signed(w)))
    case 3 => (var b :- LoadByte(code, ram, address); Success(Signed(b)))
    case _ => (var h :- LoadHalf(code, ram, address); Success(Signed(h)))
  }

  /** The bytes that a store function (5 to 7) writes. */
  function StoreData(func: bv8, value: i32): Memory {
    match func
    case 5 => ToBytes1(Bits(value))
    case 6 => ToBytes2(Bits(value))
    case _ => ToBytes4(Bits(value))
  }

  function Address(base: i32, imm: bv32): u32 {
    WrapU32(ToU32(base) + Signed(imm))
  }

  function ExecLoad(m: Machine, rd: bv8, value: Result<i32, Error>, size: Size): Outcome
    requires rd < 32
  {
    match value
    case Failure(e) => Fault(m, e)
    case Success(v) => Next(Put(m, rd, v), size)
  }

  function ExecStore(m: Machine, address: u32, data: Memory, size: Size): Outcome {
    match StoreBytes(m.ram, address, data)
    case Failure(e) => Fault(m, e)
    case Success(ram) => Next(m.(ram := ram), size)
  }

  function ExecLoadStore(t: TypeI, code: Memory, m: Machine): Outcome
    requires t.Encodable()
  {
    var address := Address(Get(m, t.rs1), t.imm);
    if t.func < 5 then
      ExecLoad(m, t.rdRs2, LoadValue(t.func, code, m.ram, address), WordSize)
    else
      ExecStore(m, address, StoreData(t.func, Get(m, t.rdRs2)), WordSize)
  }

  // Control flow.

  function Taken(func: bv8, rs1: i32, rs2: i32): Option<bool> {
    match func
    case 0 => Some(rs1 == rs2)
    case 1 => Some(rs1 != rs2)
    case 2 => Some(rs1 < rs2)
    case 3 => Some(rs1 >= rs2)
    case 4 => Some(ToU32(rs1) < ToU32(rs2))
    case 5 => Some(ToU32(rs1) >= ToU32(rs2))
    case _ => None
  }

  function ExecBranch(t: TypeB, m: Machine): Outcome
    requires t.Encodable()
  {
    match Taken(t.func, Get(m, t.rs1), Get(m, t.rs2))
    case None => Fault(m, InvalidInstruction(m.pc))
    case Some(taken) => if taken then Outcome(Success(Running), JumpBy(m, t.imm)) else Next(m, WordSize)
  }

  function Link(m: Machine, size: Size): i32 {
    ToI32(WrapU32(m.pc + size.Bytes()))
  }

  function ExecJal(t: TypeJ, m: Machine): Outcome
    requires t.Encodable()
  {
    Outcome(Success(Running), JumpBy(PutUnlessZero(m, t.rd, Link(m, WordSize)), t.imm))
  }

  /** The target is read before the link is written, and keeps its low bit. */
  function ExecJalr(t: TypeI, m: Machine): Outcome
    requires t.Encodable()
  {
    var target := Address(Get(m, t.rs1), t.imm);
    Outcome(Success(Running), PutUnlessZero(m, t.rdRs2, Link(m, WordSize)).(pc := target))
  }

  // System.

  /** The operation of a CSR instruction: writing is skipped for set and clear from x0 or 0. */
  function CsrOperation(t: TypeI, m: Machine): Option<Option<CSOperation>>
    requires t.Encodable()
  {
    match t.func
    case 1 => Some(Some(Write(Bits(Get(m, t.rs1)))))
    case 2 => Some(if t.rs1 != 0 then Some(Set(Bits(Get(m, t.rs1)))) else None)
    case 3 => Some(if t.rs1 != 0 then Some(Clear(Bits(Get(m, t.rs1)))) else None)
    case 4 => Some(Some(Write(t.rs1 as bv32)))
    case 5 => Some(if t.rs1 != 0 then Some(Set(t.rs1 as bv32)) else None)
    case 6 => Some(if t.rs1 != 0 then Some(Clear(t.rs1 as bv32)) else None)
    case _ => None
  }

  function CsrAddress(imm: bv32): bv16 {
    (imm & 0xFFF) as bv16
  }

  function ExecCsr(t: TypeI, m: Machine): Outcome
    requires t.Encodable()
  {
    match CsrOperation(t, m)
    case None => Fault(m, InvalidInstruction(m.pc))
    case Some(op) =>
      match Operation(m.csr, op, CsrAddress(t.imm))
      case Failure(e) => Fault(m, e)
      case Success(done) => Next(PutUnlessZero(m.(csr := done.1), t.rdRs2, Signed(done.0)), WordSize)
  }

  function ExecSystem(t: TypeI, m: Machine): Outcome
    requires t.Encodable()
  {
    if t.func == 0 then
      match t.imm
      case 0 => Outcome(Success(Called), Advance(m, WordSize))
      case 1 => Outcome(Success(Halted), Advance(m, WordSize))
      case 2 => Next(m, WordSize)
      case 3 => Outcome(Success(Waiting), Advance(m, WordSize))
      case 4 => Outcome(Success(Running), m.(csr := TrapReturn(m.csr), pc := UInt(m.csr.mepc)))
      case _ => Fault(m, InvalidInstruction(m.pc))
    else
      ExecCsr(t, m)
  }

  // Compressed instructions that are more than one base operation.

  function ExecJrMv(t: TypeCR, m: Machine): Outcome
    requires t.Encodable()
  {
    if t.rs2 == 0 then
      Outcome(Success(Running), m.(pc := ToU32(Get(m, t.rdRs1))))
    else
      Next(Put(m, t.rdRs1, Get(m, t.rs2)), HalfSize)
  }

  const RA: bv8 := 1
  const SP: bv8 := 2

  function ExecEbreakJalrAdd(t: TypeCR, m: Machine): Outcome
    requires t.Encodable()
  {
    if t.rs2 == 0 then
      if t.rdRs1 == 0 then
        Outcome(Success(Halted), Advance(m, HalfSize))
      else
        Outcome(Success(Running), Put(m, RA, Link(m, HalfSize)).(pc := ToU32(Get(m, t.rdRs1))))
    else
      Next(Put(m, t.rdRs1, WrapI32(Get(m, t.rdRs1) + Get(m, t.rs2))), HalfSize)
  }

  // Instructions with one operation.

  function ExecCAddi4spn(t: TypeCIW, m: Machine): Outcome
    requires t.Encodable()
  {
    if t.imm == 0 then
      Fault(m, IllegalInstruction(m.pc))
    else
      Next(Put(m, t.rd, WrapI32(Get(m, SP) + Signed(t.imm))), HalfSize)
  }

  function ExecCLw(t: TypeCL, code: Memory, m: Machine): Outcome
    requires t.Encodable()
  {
    ExecLoad(m, t.rdRs2, LoadValue(2, code, m.ram, Address(Get(m, t.rs1), t.imm)), HalfSize)
  }

  function ExecCSw(t: TypeCL, m: Machine): Outcome
    requires t.Encodable()
  {
    ExecStore(m, Address(Get(m, t.rs1), t.imm), StoreData(7, Get(m, t.rdRs2)), HalfSize)
  }

  function ExecCAddi(t: TypeCI1, m: Machine): Outcome
    requires t.Encodable()
  {
    Next(PutUnlessZero(m, t.rdRs1, WrapI32(Get(m, t.rdRs1) + Signed(t.imm))), HalfSize)
  }

  function ExecCJal(t: TypeCJ, m: Machine): Outcome
    requires t.Encodable()
  {
    Outcome(Success(Running), JumpBy(Put(m, RA, Link(m, HalfSize)), t.imm))
  }

  function ExecCLi(t: TypeCI1, m: Machine): Outcome
    requires t.Encodable()
  {
    Next(PutUnlessZero(m, t.rdRs1, Signed(t.imm)), HalfSize)
  }

  function ExecCAddi16sp(t: TypeCI2, m: Machine): Outcome
    requires t.Encodable()
  {
    Next(Put(m, SP, WrapI32(Get(m, SP) + Signed(t.imm))), HalfSize)
  }

  function ExecCLui(t: TypeCI3, m: Machine): Outcome
    requires t.Encodable()
  {
    Next(PutUnlessZero(m, t.rdRs1, Signed(t.imm)), HalfSize)
  }

  function ExecCSrli(t: TypeCB1, m: Machine): Outcome
    requires t.Encodable()
  {
    Next(PutUnlessZero(m, t.rdRs1, ShiftRightLogical(Get(m, t.rdRs1), UInt(t.imm) % 32)), HalfSize)
  }

  function ExecCSrai(t: TypeCB1, m: Machine): Outcome
    requires t.Encodable()
  {
    Next(PutUnlessZero(m, t.rdRs1, ShiftRightArithmetic(Get(m, t.rdRs1), UInt(t.imm) % 32)), HalfSize)
  }

  function ExecCAndi(t: TypeCB2, m: Machine): Outcome
    requires t.Encodable()
  {
    Next(PutUnlessZero(m, t.rdRs1, And(Get(m, t.rdRs1), Signed(t.imm))), HalfSize)
  }

  function ExecCSub(t: TypeCS, m: Machine): Outcome
    requires t.Encodable()
  {
    Next(PutUnlessZero(m, t.rdRs1, WrapI32(Get(m, t.rdRs1) - Get(m, t.rs2))), HalfSize)
  }

  function ExecCXor(t: TypeCS, m: Machine): Outcome
    requires t.Encodable()
  {
    Next(PutUnlessZero(m, t.rdRs1, Xor(Get(m, t.rdRs1), Get(m, t.rs2))), HalfSize)
  }

  function ExecCOr(t: TypeCS, m: Machine): Outcome
    requires t.Encodable()
  {
    Next(PutUnlessZero(m, t.rdRs1, Or(Get(m, t.rdRs1), Get(m, t.rs2))), HalfSize)
  }

  function ExecCAnd(t: TypeCS, m: Machine): Outcome
    requires t.Encodable()
  {
    Next(PutUnlessZero(m, t.rdRs1, And(Get(m, t.rdRs1), Get(m, t.rs2))), HalfSize)
  }

  function ExecCJ(t: TypeCJ, m: Machine): Outcome
    requires t.Encodable()
  {
    Outcome(Success(Running), JumpBy(m, t.imm))
  }

  function ExecCBeqz(t: TypeCB4, m: Machine): Outcome
    requires t.Encodable()
  {
    if Get(m, t.rs1) == 0 then Outcome(Success(Running), JumpBy(m, t.imm)) else Next(m, HalfSize)
  }

  function ExecCBnez(t: TypeCB4, m: Machine): Outcome
    requires t.Encodable()
  {
    if Get(m, t.rs1) != 0 then Outcome(Success(Running), JumpBy(m, t.imm)) else Next(m, HalfSize)
  }

  function ExecCSlli(t: TypeCI4, m: Machine): Outcome
    requires t.Encodable()
  {
    Next(PutUnlessZero(m, t.rdRs1, WrapI32(Get(m, t.rdRs1) * Pow2(UInt(t.imm) % 32))), HalfSize)
  }

  function ExecCLwsp(t: TypeCI5, code: Memory, m: Machine): Outcome
    requires t.Encodable()
  {
    ExecLoad(m, t.rdRs1, LoadValue(2, code, m.ram, Address(Get(m, SP), t.imm)), HalfSize)
  }

  function ExecCSwsp(t: TypeCSS, m: Machine): Outcome
    requires t.Encodable()
  {
    ExecStore(m, Address(Get(m, SP), t.imm), StoreData(7, Get(m, t.rs2)), HalfSize)
  }

  function ExecAuipc(t: TypeU, m: Machine): Outcome
    requires t.Encodable()
  {
    Next(PutUnlessZero(m, t.rd, ToI32(WrapU32(m.pc + Signed(t.imm)))), WordSize)
  }

  function ExecLui(t: TypeU, m: Machine): Outcome
    requires t.Encodable()
  {
    Next(PutUnlessZero(m, t.rd, Signed(t.imm)), WordSize)
  }

  /** One arm for each instruction; the register fields of a decoded instruction are below 32. */
  function Execute(e: Instruction, code: Memory, m: Machine): Outcome
    requires e.Encodable()
  {
    hide TypeCIW.Encodable, TypeCL.Encodable, TypeCI1.Encodable, TypeCJ.Encodable, TypeCI2.Encodable,
      TypeCI3.Encodable, TypeCB1.Encodable, TypeCB2.Encodable, TypeCS.Encodable, TypeCB4.Encodable,
      TypeCI4.Encodable, TypeCI5.Encodable, TypeCR.Encodable, TypeCSS.Encodable, TypeU.Encodable,
      TypeB.Encodable, TypeJ.Encodable, TypeI.Encodable, TypeR.Encodable;
    match e
    case CAddi4spn(t) => ExecCAddi4spn(t, m)
    case CLw(t) => ExecCLw(t, code, m)
    case CSw(t) => ExecCSw(t, m)
    case CAddi(t) => ExecCAddi(t, m)
    case CJal(t) => ExecCJal(t, m)
    case CLi(t) => ExecCLi(t, m)
    case CAddi16sp(t) => ExecCAddi16sp(t, m)
    case CLui(t) => ExecCLui(t, m)
    case CSrli(t) => ExecCSrli(t, m)
    case CSrai(t) => ExecCSrai(t, m)
    case CAndi(t) => ExecCAndi(t, m)
    case CSub(t) => ExecCSub(t, m)
    case CXor(t) => ExecCXor(t, m)
    case COr(t) => ExecCOr(t, m)
    case CAnd(t) => ExecCAnd(t, m)
    case CJ(t) => ExecCJ(t, m)
    case CBeqz(t) => ExecCBeqz(t, m)
    case CBnez(t) => ExecCBnez(t, m)
    case CSlli(t) => ExecCSlli(t, m)
    case CLwsp(t) => ExecCLwsp(t, code, m)
    case CJrMv(t) => ExecJrMv(t, m)
    case CEbreakJalrAdd(t) => ExecEbreakJalrAdd(t, m)
    case CSwsp(t) => ExecCSwsp(t, m)
    case Auipc(t) => ExecAuipc(t, m)
    case Branch(t) => ExecBranch(t, m)
    case Jal(t) => ExecJal(t, m)
    case Jalr(t) => ExecJalr(t, m)
    case LoadStore(t) => ExecLoadStore(t, code, m)
    case Lui(t) => ExecLui(t, m)
    case OpImm(t) => ExecOpImm(t, m)
    case OpAmo(t) => ExecOpAmo(t, code, m)
    case SystemMiscMem(t) => ExecSystem(t, m)
  }
}
