/**
  The RISC-V instructions, written from the RISC-V Unprivileged ISA (20191213): RV32I (chapter 2),
  Zifencei (3), M (7), A (8), Zicsr (9) and C (16), with WFI and MRET from the Privileged ISA.

  Immediates are sums of weighted instruction bits, as the format figures label them.  A compressed
  instruction is decoded to the base instruction that it expands to.  Reserved encodings and those
  that the standard leaves to custom extensions decode to `None`.
 */
module Riscv {
  import opened Wrappers
  import opened Words

  datatype AluOp =
    | ADD | SUB | SLL | SLT | SLTU | XOR | SRL | SRA | OR | AND
    | MUL | MULH | MULHSU | MULHU | DIV | DIVU | REM | REMU

  datatype AmoOp = SWAP | PLUS | XOR | AND | OR | MIN | MAX | MINU | MAXU

  datatype Condition = EQ | NE | LT | GE | LTU | GEU

  datatype LoadKind = LB | LH | LW | LBU | LHU

  datatype StoreKind = SB | SH | SW

  datatype CsrOp = RW | RS | RC

  datatype CsrSource = Register(rs1: nat) | Immediate(uimm: bv32)

  datatype Instr =
    | Lui(rd: nat, imm: int)
    | Auipc(rd: nat, imm: int)
    | Jal(rd: nat, imm: int)
    | Jalr(rd: nat, rs1: nat, imm: int)
    | Branch(cond: Condition, rs1: nat, rs2: nat, imm: int)
    | Load(load: LoadKind, rd: nat, rs1: nat, imm: int)
    | Store(store: StoreKind, rs1: nat, rs2: nat, imm: int)
    | OpImm(op: AluOp, rd: nat, rs1: nat, imm: int)
    | Op(op: AluOp, rd: nat, rs1: nat, rs2: nat)
    | LoadReserved(rd: nat, rs1: nat)
    | StoreConditional(rd: nat, rs1: nat, rs2: nat)
    | Amo(amo: AmoOp, rd: nat, rs1: nat, rs2: nat)
    | Fence
    | Ecall
    | Ebreak
    | Wfi
    | Mret
    | Csr(csr: CsrOp, rd: nat, source: CsrSource, addr: bv32)
    | Illegal

  // Register fields: five bits, or three bits that name x8 to x15.

  function Rd(w: bv32): nat { Nat((w >> 7) & 0x1F) }

  function Rs1(w: bv32): nat { Nat((w >> 15) & 0x1F) }

  function Rs2(w: bv32): nat { Nat((w >> 20) & 0x1F) }

  function CRs2(w: bv32): nat { Nat((w >> 2) & 0x1F) }

  /** The register in bits 4 to 2. */
  function CLow(w: bv32): nat { 8 + Nat((w >> 2) & 0x7) }

  /** The register in bits 9 to 7. */
  function CHigh(w: bv32): nat { 8 + Nat((w >> 7) & 0x7) }

  // Immediates of the base formats (section 2.3).

  function Bits30To25(w: bv32): int {
    32 * Bit(w, 30) + 16 * Bit(w, 29) + 8 * Bit(w, 28) + 4 * Bit(w, 27) + 2 * Bit(w, 26) + Bit(w, 25)
  }

  function ImmI(w: bv32): int {
    -2048 * Bit(w, 31) + 32 * Bits30To25(w)
    + 16 * Bit(w, 24) + 8 * Bit(w, 23) + 4 * Bit(w, 22) + 2 * Bit(w, 21) + Bit(w, 20)
  }

  function ImmS(w: bv32): int {
    -2048 * Bit(w, 31) + 32 * Bits30To25(w)
    + 16 * Bit(w, 11) + 8 * Bit(w, 10) + 4 * Bit(w, 9) + 2 * Bit(w, 8) + Bit(w, 7)
  }

  function ImmB(w: bv32): int {
    -4096 * Bit(w, 31) + 2048 * Bit(w, 7) + 32 * Bits30To25(w)
    + 16 * Bit(w, 11) + 8 * Bit(w, 10) + 4 * Bit(w, 9) + 2 * Bit(w, 8)
  }

  function ImmU(w: bv32): int {
    -0x8000_0000 * Bit(w, 31) + 0x200_0000 * Bits30To25(w)
    + 0x100_0000 * Bit(w, 24) + 0x80_0000 * Bit(w, 23) + 0x40_0000 * Bit(w, 22) + 0x20_0000 * Bit(w, 21)
    + 0x10_0000 * Bit(w, 20) + 0x8_0000 * Bit(w, 19) + 0x4_0000 * Bit(w, 18) + 0x2_0000 * Bit(w, 17)
    + 0x1_0000 * Bit(w, 16) + 0x8000 * Bit(w, 15) + 0x4000 * Bit(w, 14) + 0x2000 * Bit(w, 13) + 0x1000 * Bit(w, 12)
  }

  function ImmJ(w: bv32): int {
    -0x10_0000 * Bit(w, 31)
    + 0x8_0000 * Bit(w, 19) + 0x4_0000 * Bit(w, 18) + 0x2_0000 * Bit(w, 17) + 0x1_0000 * Bit(w, 16)
    + 0x8000 * Bit(w, 15) + 0x4000 * Bit(w, 14) + 0x2000 * Bit(w, 13) + 0x1000 * Bit(w, 12)
    + 2048 * Bit(w, 20) + 32 * Bits30To25(w)
    + 16 * Bit(w, 24) + 8 * Bit(w, 23) + 4 * Bit(w, 22) + 2 * Bit(w, 21)
  }

  // Immediates of the compressed formats (sections 16.3 to 16.5).

  function ImmCiw(w: bv32): int {
    32 * Bit(w, 12) + 16 * Bit(w, 11) + 512 * Bit(w, 10) + 256 * Bit(w, 9) + 128 * Bit(w, 8) + 64 * Bit(w, 7)
    + 4 * Bit(w, 6) + 8 * Bit(w, 5)
  }

  function ImmCl(w: bv32): int {
    32 * Bit(w, 12) + 16 * Bit(w, 11) + 8 * Bit(w, 10) + 4 * Bit(w, 6) + 64 * Bit(w, 5)
  }

  function Bits6To2(w: bv32): int {
    16 * Bit(w, 6) + 8 * Bit(w, 5) + 4 * Bit(w, 4) + 2 * Bit(w, 3) + Bit(w, 2)
  }

  function ImmCi(w: bv32): int {
    -32 * Bit(w, 12) + Bits6To2(w)
  }

  function ImmCiAddi16sp(w: bv32): int {
    -512 * Bit(w, 12) + 16 * Bit(w, 6) + 64 * Bit(w, 5) + 256 * Bit(w, 4) + 128 * Bit(w, 3) + 32 * Bit(w, 2)
  }

  function ImmCiLwsp(w: bv32): int {
    32 * Bit(w, 12) + 16 * Bit(w, 6) + 8 * Bit(w, 5) + 4 * Bit(w, 4) + 128 * Bit(w, 3) + 64 * Bit(w, 2)
  }

  function ImmCss(w: bv32): int {
    32 * Bit(w, 12) + 16 * Bit(w, 11) + 8 * Bit(w, 10) + 4 * Bit(w, 9) + 128 * Bit(w, 8) + 64 * Bit(w, 7)
  }

  function ImmCb(w: bv32): int {
    -256 * Bit(w, 12) + 16 * Bit(w, 11) + 8 * Bit(w, 10)
    + 128 * Bit(w, 6) + 64 * Bit(w, 5) + 4 * Bit(w, 4) + 2 * Bit(w, 3) + 32 * Bit(w, 2)
  }

  function ImmCj(w: bv32): int {
    -2048 * Bit(w, 12) + 16 * Bit(w, 11) + 512 * Bit(w, 10) + 256 * Bit(w, 9) + 1024 * Bit(w, 8) + 64 * Bit(w, 7)
    + 128 * Bit(w, 6) + 8 * Bit(w, 5) + 4 * Bit(w, 4) + 2 * Bit(w, 3) + 32 * Bit(w, 2)
  }

  // 32-bit instructions, by opcode (chapter 24).

  function Funct3(w: bv32): bv32 { (w >> 12) & 0x7 }

  function Funct7(w: bv32): bv32 { w >> 25 }

  function LoadKindOf(w: bv32): Option<LoadKind> {
    match Funct3(w)
    case 0 => Some(LB)
    case 1 => Some(LH)
    case 2 => Some(LW)
    case 4 => Some(LBU)
    case 5 => Some(LHU)
    case _ => None
  }

  function StoreKindOf(w: bv32): Option<StoreKind> {
    match Funct3(w)
    case 0 => Some(SB)
    case 1 => Some(SH)
    case 2 => Some(SW)
    case _ => None
  }

  function ConditionOf(w: bv32): Option<Condition> {
    match Funct3(w)
    case 0 => Some(EQ)
    case 1 => Some(NE)
    case 4 => Some(LT)
    case 5 => Some(GE)
    case 6 => Some(LTU)
    case 7 => Some(GEU)
    case _ => None
  }

  /** Register-register operations: funct7 is 0, 0100000 for SUB and SRA, or 1 for the M extension. */
  function AluOpOf(w: bv32): Option<AluOp> {
    if Funct7(w) == 0 then
      match Funct3(w)
      case 0 => Some(AluOp.ADD)
      case 1 => Some(SLL)
      case 2 => Some(SLT)
      case 3 => Some(SLTU)
      case 4 => Some(AluOp.XOR)
      case 5 => Some(SRL)
      case 6 => Some(AluOp.OR)
      case _ => Some(AluOp.AND)
    else if Funct7(w) == 0x20 then
      match Funct3(w)
      case 0 => Some(SUB)
      case 5 => Some(SRA)
      case _ => None
    else if Funct7(w) == 1 then
      match Funct3(w)
      case 0 => Some(MUL)
      case 1 => Some(MULH)
      case 2 => Some(MULHSU)
      case 3 => Some(MULHU)
      case 4 => Some(DIV)
      case 5 => Some(DIVU)
      case 6 => Some(REM)
      case _ => Some(REMU)
    else
      None
  }

  function DecodeOpImm(w: bv32): Option<Instr> {
    match Funct3(w)
    case 0 => Some(OpImm(ADD, Rd(w), Rs1(w), ImmI(w)))
    case 1 => if Funct7(w) == 0 then Some(OpImm(SLL, Rd(w), Rs1(w), Rs2(w))) else None
    case 2 => Some(OpImm(SLT, Rd(w), Rs1(w), ImmI(w)))
    case 3 => Some(OpImm(SLTU, Rd(w), Rs1(w), ImmI(w)))
    case 4 => Some(OpImm(AluOp.XOR, Rd(w), Rs1(w), ImmI(w)))
    case 5 =>
      if Funct7(w) == 0 then Some(OpImm(SRL, Rd(w), Rs1(w), Rs2(w)))
      else if Funct7(w) == 0x20 then Some(OpImm(SRA, Rd(w), Rs1(w), Rs2(w)))
      else None
    case 6 => Some(OpImm(AluOp.OR, Rd(w), Rs1(w), ImmI(w)))
    case _ => Some(OpImm(AluOp.AND, Rd(w), Rs1(w), ImmI(w)))
  }

  /** Atomic operations by funct5; the acquire and release bits do not matter on one hart. */
  function DecodeAmo(w: bv32): Option<Instr> {
    if Funct3(w) != 2 then
      None
    else
      match w >> 27
      case 0x02 => if (w >> 20) & 0x1F == 0 then Some(LoadReserved(Rd(w), Rs1(w))) else None
      case 0x03 => Some(StoreConditional(Rd(w), Rs1(w), Rs2(w)))
      case 0x01 => Some(Amo(SWAP, Rd(w), Rs1(w), Rs2(w)))
      case 0x00 => Some(Amo(PLUS, Rd(w), Rs1(w), Rs2(w)))
      case 0x04 => Some(Amo(AmoOp.XOR, Rd(w), Rs1(w), Rs2(w)))
      case 0x0C => Some(Amo(AmoOp.AND, Rd(w), Rs1(w), Rs2(w)))
      case 0x08 => Some(Amo(AmoOp.OR, Rd(w), Rs1(w), Rs2(w)))
      case 0x10 => Some(Amo(MIN, Rd(w), Rs1(w), Rs2(w)))
      case 0x14 => Some(Amo(MAX, Rd(w), Rs1(w), Rs2(w)))
      case 0x18 => Some(Amo(MINU, Rd(w), Rs1(w), Rs2(w)))
      case 0x1C => Some(Amo(MAXU, Rd(w), Rs1(w), Rs2(w)))
      case _ => None
  }

  function DecodeSystem(w: bv32): Option<Instr> {
    match Funct3(w)
    case 0 =>
      (match w
       case 0x0000_0073 => Some(Ecall)
       case 0x0010_0073 => Some(Ebreak)
       case 0x1050_0073 => Some(Wfi)
       case 0x3020_0073 => Some(Mret)
       case _ => None)
    case 1 => Some(Csr(RW, Rd(w), Register(Rs1(w)), w >> 20))
    case 2 => Some(Csr(RS, Rd(w), Register(Rs1(w)), w >> 20))
    case 3 => Some(Csr(RC, Rd(w), Register(Rs1(w)), w >> 20))
    case 5 => Some(Csr(RW, Rd(w), Immediate((w >> 15) & 0x1F), w >> 20))
    case 6 => Some(Csr(RS, Rd(w), Immediate((w >> 15) & 0x1F), w >> 20))
    case 7 => Some(Csr(RC, Rd(w), Immediate((w >> 15) & 0x1F), w >> 20))
    case _ => None
  }

  function DecodeWord(w: bv32): Option<Instr> {
    match w & 0x7F
    case 0x03 => (match LoadKindOf(w) case Some(k) => Some(Load(k, Rd(w), Rs1(w), ImmI(w))) case None => None)
    case 0x0F => if Funct3(w) <= 1 then Some(Fence) else None
    case 0x13 => DecodeOpImm(w)
    case 0x17 => Some(Auipc(Rd(w), ImmU(w)))
    case 0x23 => (match StoreKindOf(w) case Some(k) => Some(Store(k, Rs1(w), Rs2(w), ImmS(w))) case None => None)
    case 0x2F => DecodeAmo(w)
    case 0x33 => (match AluOpOf(w) case Some(op) => Some(Op(op, Rd(w), Rs1(w), Rs2(w))) case None => None)
    case 0x37 => Some(Lui(Rd(w), ImmU(w)))
    case 0x63 => (match ConditionOf(w) case Some(c) => Some(Branch(c, Rs1(w), Rs2(w), ImmB(w))) case None => None)
    case 0x67 => if Funct3(w) == 0 then Some(Jalr(Rd(w), Rs1(w), ImmI(w))) else None
    case 0x6F => Some(Jal(Rd(w), ImmJ(w)))
    case 0x73 => DecodeSystem(w)
    case _ => None
  }

  // Compressed instructions, by quadrant (section 16.8).

  function CFunct3(w: bv32): bv32 { (w >> 13) & 0x7 }

  function DecodeQuadrant0(w: bv32): Option<Instr> {
    match CFunct3(w)
    case 0 =>
      if ImmCiw(w) == 0 then
        if w & 0xFFFF == 0 then Some(Illegal) else None
      else
        Some(OpImm(ADD, CLow(w), 2, ImmCiw(w)))
    case 2 => Some(Load(LW, CLow(w), CHigh(w), ImmCl(w)))
    case 6 => Some(Store(SW, CHigh(w), CLow(w), ImmCl(w)))
    case _ => None
  }

  function DecodeQuadrant1(w: bv32): Option<Instr> {
    match CFunct3(w)
    case 0 => Some(OpImm(ADD, Rd(w), Rd(w), ImmCi(w)))
    case 1 => Some(Jal(1, ImmCj(w)))
    case 2 => Some(OpImm(ADD, Rd(w), 0, ImmCi(w)))
    case 3 =>
      if (w >> 7) & 0x1F == 2 then
        if ImmCiAddi16sp(w) == 0 then None else Some(OpImm(ADD, 2, 2, ImmCiAddi16sp(w)))
      else
        if ImmCi(w) == 0 then None else Some(Lui(Rd(w), 4096 * ImmCi(w)))
    case 4 => DecodeQuadrant1Alu(w)
    case 5 => Some(Jal(0, ImmCj(w)))
    case 6 => Some(Branch(EQ, CHigh(w), 0, ImmCb(w)))
    case _ => Some(Branch(NE, CHigh(w), 0, ImmCb(w)))
  }

  /** Shift amounts with bit 5 set are left to custom extensions on RV32. */
  function DecodeQuadrant1Alu(w: bv32): Option<Instr> {
    match (w >> 10) & 0x3
    case 0 => if Bit(w, 12) == 0 then Some(OpImm(SRL, CHigh(w), CHigh(w), Bits6To2(w))) else None
    case 1 => if Bit(w, 12) == 0 then Some(OpImm(SRA, CHigh(w), CHigh(w), Bits6To2(w))) else None
    case 2 => Some(OpImm(AluOp.AND, CHigh(w), CHigh(w), ImmCi(w)))
    case _ =>
      if Bit(w, 12) == 1 then
        None
      else
        match (w >> 5) & 0x3
        case 0 => Some(Op(SUB, CHigh(w), CHigh(w), CLow(w)))
        case 1 => Some(Op(AluOp.XOR, CHigh(w), CHigh(w), CLow(w)))
        case 2 => Some(Op(AluOp.OR, CHigh(w), CHigh(w), CLow(w)))
        case _ => Some(Op(AluOp.AND, CHigh(w), CHigh(w), CLow(w)))
  }

  function DecodeQuadrant2(w: bv32): Option<Instr> {
    match CFunct3(w)
    case 0 => if Bit(w, 12) == 0 then Some(OpImm(SLL, Rd(w), Rd(w), Bits6To2(w))) else None
    case 2 => if (w >> 7) & 0x1F == 0 then None else Some(Load(LW, Rd(w), 2, ImmCiLwsp(w)))
    case 4 => DecodeJumpMoveAdd(w)
    case 6 => Some(Store(SW, 2, CRs2(w), ImmCss(w)))
    case _ => None
  }

  /** C.JR, C.MV, C.EBREAK, C.JALR and C.ADD. */
  function DecodeJumpMoveAdd(w: bv32): Option<Instr> {
    if Bit(w, 12) == 0 then
      if (w >> 2) & 0x1F == 0 then
        if (w >> 7) & 0x1F == 0 then None else Some(Jalr(0, Rd(w), 0))
      else
        Some(Op(ADD, Rd(w), 0, CRs2(w)))
    else
      if (w >> 2) & 0x1F == 0 then
        if (w >> 7) & 0x1F == 0 then Some(Ebreak) else Some(Jalr(1, Rd(w), 0))
      else
        Some(Op(ADD, Rd(w), Rd(w), CRs2(w)))
  }

  /** Instruction length in bytes (section 1.5). */
  function Length(w: bv32): nat {
    if w & 0x3 == 3 then 4 else 2
  }

  function Decode(w: bv32): Option<Instr> {
    match w & 0x3
    case 0 => DecodeQuadrant0(w)
    case 1 => DecodeQuadrant1(w)
    case 2 => DecodeQuadrant2(w)
    case _ => DecodeWord(w)
  }
}
