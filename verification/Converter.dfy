/**
  Conversion of one RISC-V instruction word to an Embive word (src/transpiler/convert.rs and the files
  under src/transpiler/convert).
 */
module Converter {
  import opened Wrappers
  import opened Words
  import opened Formats
  import opened Embive

  /** The instruction word that was refused. */
  datatype Error = InvalidInstruction(inst: bv32)

  datatype RawInstruction = RawInstruction(data: bv32, size: Size)

  type Conversion = Result<RawInstruction, Error>

  // Fields that select a compressed instruction.

  function CFunct3(data: bv32): bv32 { (data >> 13) & 0x7 }

  function CBit12(data: bv32): bv32 { (data >> 12) & 0x1 }

  function CBits11To10(data: bv32): bv32 { (data >> 10) & 0x3 }

  function CBits6To5(data: bv32): bv32 { (data >> 5) & 0x3 }

  function Half(fields: bv32, opcode: bv32): Conversion { Success(RawInstruction(Tagged(fields, opcode), HalfSize)) }

  function Full(fields: bv32, opcode: bv32): Conversion { Success(RawInstruction(Tagged(fields, opcode), WordSize)) }

  /** Only the low half is reported of a compressed instruction that is refused. */
  function RefusedHalf(data: bv32): Conversion { Failure(InvalidInstruction(data & 0xFFFF)) }

  function C0(data: bv32): Conversion {
    match CFunct3(data)
    case 0 => Half(TypeCIW.FromRiscv(data).ToEmbive(), C_ADDI4SPN)
    case 2 => Half(TypeCL.FromRiscv(data).ToEmbive(), C_LW)
    case 6 => Half(TypeCL.FromRiscv(data).ToEmbive(), C_SW)
    case _ => RefusedHalf(data)
  }

  function C1(data: bv32): Conversion {
    match CFunct3(data)
    case 0 => Half(TypeCI1.FromRiscv(data).ToEmbive(), C_ADDI)
    case 1 => Half(TypeCJ.FromRiscv(data).ToEmbive(), C_JAL)
    case 2 => Half(TypeCI1.FromRiscv(data).ToEmbive(), C_LI)
    case 3 =>
      if TypeCI3.FromRiscv(data).rdRs1 == 2 then
        Half(TypeCI2.FromRiscv(data).ToEmbive(), C_ADDI16SP)
      else
        Half(TypeCI3.FromRiscv(data).ToEmbive(), C_LUI)
    case 4 => C1Alu(data)
    case 5 => Half(TypeCJ.FromRiscv(data).ToEmbive(), C_J)
    case 6 => Half(TypeCB4.FromRiscv(data).ToEmbive(), C_BEQZ)
    case 7 => Half(TypeCB4.FromRiscv(data).ToEmbive(), C_BNEZ)
    case _ => RefusedHalf(data)
  }

  function C1Alu(data: bv32): Conversion {
    match CBits11To10(data)
    case 0 => Half(TypeCB1.FromRiscv(data).ToEmbive(), C_SRLI)
    case 1 => Half(TypeCB1.FromRiscv(data).ToEmbive(), C_SRAI)
    case 2 => Half(TypeCB2.FromRiscv(data).ToEmbive(), C_ANDI)
    case _ =>
      if CBit12(data) == 0 then
        match CBits6To5(data)
        case 0 => Half(TypeCS.FromRiscv(data).ToEmbive(), C_SUB)
        case 1 => Half(TypeCS.FromRiscv(data).ToEmbive(), C_XOR)
        case 2 => Half(TypeCS.FromRiscv(data).ToEmbive(), C_OR)
        case 3 => Half(TypeCS.FromRiscv(data).ToEmbive(), C_AND)
        case _ => RefusedHalf(data)
      else
        RefusedHalf(data)
  }

  function C2(data: bv32): Conversion {
    match CFunct3(data)
    case 0 => Half(TypeCI4.FromRiscv(data).ToEmbive(), C_SLLI)
    case 2 => Half(TypeCI5.FromRiscv(data).ToEmbive(), C_LWSP)
    case 4 =>
      if CBit12(data) == 0 then
        Half(TypeCR.FromRiscv(data).ToEmbive(), C_JR_MV)
      else
        Half(TypeCR.FromRiscv(data).ToEmbive(), C_EBREAK_JALR_ADD)
    case 6 => Half(TypeCSS.FromRiscv(data).ToEmbive(), C_SWSP)
    case _ => RefusedHalf(data)
  }

  /** Renumbering of funct3, and of the merged funct10 field, to the Embive function constants. */
  function LoadFunc(func: bv8): Option<bv8> {
    match func
    case 0 => Some(0)
    case 1 => Some(1)
    case 2 => Some(2)
    case 4 => Some(3)
    case 5 => Some(4)
    case _ => None
  }

  function StoreFunc(func: bv8): Option<bv8> {
    match func
    case 0 => Some(5)
    case 1 => Some(6)
    case 2 => Some(7)
    case _ => None
  }

  function BranchFunc(func: bv8): Option<bv8> {
    match func
    case 0 => Some(0)
    case 1 => Some(1)
    case 4 => Some(2)
    case 5 => Some(3)
    case 6 => Some(4)
    case 7 => Some(5)
    case _ => None
  }

  function OpImmFunc(func: bv8): Option<bv8> {
    match func
    case 0 => Some(0)
    case 1 => Some(1)
    case 2 => Some(2)
    case 3 => Some(3)
    case 4 => Some(4)
    case 5 => Some(5)
    case 6 => Some(6)
    case 7 => Some(7)
    case _ => None
  }

  function OpFunc(func: bv16): Option<bv16> {
    match func
    case 0x000 => Some(0)
    case 0x100 => Some(1)
    case 0x001 => Some(2)
    case 0x002 => Some(3)
    case 0x003 => Some(4)
    case 0x004 => Some(5)
    case 0x005 => Some(6)
    case 0x105 => Some(7)
    case 0x006 => Some(8)
    case 0x007 => Some(9)
    case 0x008 => Some(10)
    case 0x009 => Some(11)
    case 0x00A => Some(12)
    case 0x00B => Some(13)
    case 0x00C => Some(14)
    case 0x00D => Some(15)
    case 0x00E => Some(16)
    case 0x00F => Some(17)
    case _ => None
  }

  /** The funct5 part of an atomic operation's function field. */
  function AmoFunc(funct5: bv16): Option<bv16> {
    match funct5
    case 0x02 => Some(18)
    case 0x03 => Some(19)
    case 0x01 => Some(20)
    case 0x00 => Some(21)
    case 0x04 => Some(22)
    case 0x0C => Some(23)
    case 0x08 => Some(24)
    case 0x10 => Some(25)
    case 0x14 => Some(26)
    case 0x18 => Some(27)
    case 0x1C => Some(28)
    case _ => None
  }

  function CsrFunc(func: bv8): Option<bv8> {
    match func
    case 1 => Some(1)
    case 2 => Some(2)
    case 3 => Some(3)
    case 5 => Some(4)
    case 6 => Some(5)
    case 7 => Some(6)
    case _ => None
  }

  /** The immediate of a SYSTEM instruction with funct3 = 0: WFI and MRET are renumbered, others kept. */
  function SystemImm(imm: bv32): bv32 {
    match imm
    case 0x105 => 3
    case 0x302 => 4
    case _ => imm
  }

  function Load(data: bv32): Conversion {
    var inst := TypeI.FromRiscv(data);
    match LoadFunc(inst.func)
    case Some(func) => Full(inst.(func := func).ToEmbive(), LOAD_STORE)
    case None => Failure(InvalidInstruction(data))
  }

  function MiscMem(data: bv32): Conversion {
    Full(TypeI.FromRiscv(data).(func := 0, imm := 2).ToEmbive(), SYSTEM_MISC_MEM)
  }

  function OpImmediate(data: bv32): Conversion {
    var inst := TypeI.FromRiscv(data);
    match OpImmFunc(inst.func)
    case Some(func) => Full(inst.(func := func).ToEmbive(), OP_IMM)
    case None => Failure(InvalidInstruction(data))
  }

  /** Stores are re-encoded in the format of loads. */
  function Store(data: bv32): Conversion {
    var inst := TypeS.FromRiscv(data);
    match StoreFunc(inst.func)
    case Some(func) => Full(TypeI(inst.rs2, inst.rs1, inst.imm, func).ToEmbive(), LOAD_STORE)
    case None => Failure(InvalidInstruction(data))
  }

  function Amo(data: bv32): Conversion {
    var inst := TypeR.FromRiscv(data);
    if inst.func & 0x7 != 2 then
      Failure(InvalidInstruction(data))
    else
      match AmoFunc(inst.func >> 5)
      case Some(func) => Full(inst.(func := func).ToEmbive(), OP_AMO)
      case None => Failure(InvalidInstruction(data))
  }

  function Op(data: bv32): Conversion {
    var inst := TypeR.FromRiscv(data);
    match OpFunc(inst.func)
    case Some(func) => Full(inst.(func := func).ToEmbive(), OP_AMO)
    case None => Failure(InvalidInstruction(data))
  }

  function Branches(data: bv32): Conversion {
    var inst := TypeB.FromRiscv(data);
    match BranchFunc(inst.func)
    case Some(func) => Full(inst.(func := func).ToEmbive(), BRANCH)
    case None => Failure(InvalidInstruction(data))
  }

  function System(data: bv32): Conversion {
    var inst := TypeI.FromRiscv(data);
    if inst.func == 0 then
      Full(inst.(imm := SystemImm(inst.imm)).ToEmbive(), SYSTEM_MISC_MEM)
    else
      match CsrFunc(inst.func)
      case Some(func) => Full(inst.(func := func).ToEmbive(), SYSTEM_MISC_MEM)
      case None => Failure(InvalidInstruction(data))
  }

  /** Instructions of 32 bits, by their seven opcode bits. */
  function Uncompressed(data: bv32): Conversion {
    match data & 0x7F
    case 0x03 => Load(data)
    case 0x0F => MiscMem(data)
    case 0x13 => OpImmediate(data)
    case 0x17 => Full(TypeU.FromRiscv(data).ToEmbive(), AUIPC)
    case 0x23 => Store(data)
    case 0x2F => Amo(data)
    case 0x33 => Op(data)
    case 0x37 => Full(TypeU.FromRiscv(data).ToEmbive(), LUI)
    case 0x63 => Branches(data)
    case 0x67 => Full(TypeI.FromRiscv(data).ToEmbive(), JALR)
    case 0x6F => Full(TypeJ.FromRiscv(data).ToEmbive(), JAL)
    case 0x73 => System(data)
    case _ => Failure(InvalidInstruction(data))
  }

  function Convert(data: bv32): Conversion {
    match data & 0x3
    case 0 => C0(data)
    case 1 => C1(data)
    case 2 => C2(data)
    case _ => Uncompressed(data)
  }
}
