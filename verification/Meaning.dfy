/**
  What an Embive instruction means, as a RISC-V instruction, and the proof that conversion keeps the
  meaning: the word that `Convert` produces decodes to an instruction that means what the standard says
  the original word means.
 */
module Meaning {
  import opened Wrappers
  import opened Words
  import opened Formats
  import opened Embive
  import opened Converter
  import opened Immediates
  import R = Riscv

  /** The function constants of `LoadStore`, `Branch`, `OpAmo` and `SystemMiscMem`, in order. */
  function LoadStoreMeaning(i: TypeI): R.Instr {
    match i.func
    case 0 => R.Load(R.LB, Reg(i.rdRs2), Reg(i.rs1), Signed(i.imm))
    case 1 => R.Load(R.LH, Reg(i.rdRs2), Reg(i.rs1), Signed(i.imm))
    case 2 => R.Load(R.LW, Reg(i.rdRs2), Reg(i.rs1), Signed(i.imm))
    case 3 => R.Load(R.LBU, Reg(i.rdRs2), Reg(i.rs1), Signed(i.imm))
    case 4 => R.Load(R.LHU, Reg(i.rdRs2), Reg(i.rs1), Signed(i.imm))
    case 5 => R.Store(R.SB, Reg(i.rs1), Reg(i.rdRs2), Signed(i.imm))
    case 6 => R.Store(R.SH, Reg(i.rs1), Reg(i.rdRs2), Signed(i.imm))
    case _ => R.Store(R.SW, Reg(i.rs1), Reg(i.rdRs2), Signed(i.imm))
  }

  function BranchMeaning(b: TypeB): R.Instr {
    match b.func
    case 0 => R.Branch(R.EQ, Reg(b.rs1), Reg(b.rs2), Signed(b.imm))
    case 1 => R.Branch(R.NE, Reg(b.rs1), Reg(b.rs2), Signed(b.imm))
    case 2 => R.Branch(R.LT, Reg(b.rs1), Reg(b.rs2), Signed(b.imm))
    case 3 => R.Branch(R.GE, Reg(b.rs1), Reg(b.rs2), Signed(b.imm))
    case 4 => R.Branch(R.LTU, Reg(b.rs1), Reg(b.rs2), Signed(b.imm))
    case 5 => R.Branch(R.GEU, Reg(b.rs1), Reg(b.rs2), Signed(b.imm))
    case _ => R.Illegal
  }

  function OpImmMeaning(i: TypeI): R.Instr {
    match i.func
    case 0 => R.OpImm(R.ADD, Reg(i.rdRs2), Reg(i.rs1), Signed(i.imm))
    case 1 => R.OpImm(R.SLL, Reg(i.rdRs2), Reg(i.rs1), Nat(i.imm & 0x1F))
    case 2 => R.OpImm(R.SLT, Reg(i.rdRs2), Reg(i.rs1), Signed(i.imm))
    case 3 => R.OpImm(R.SLTU, Reg(i.rdRs2), Reg(i.rs1), Signed(i.imm))
    case 4 => R.OpImm(R.AluOp.XOR, Reg(i.rdRs2), Reg(i.rs1), Signed(i.imm))
    case 5 => R.OpImm(if i.imm & 0x400 != 0 then R.SRA else R.SRL, Reg(i.rdRs2), Reg(i.rs1), Nat(i.imm & 0x1F))
    case 6 => R.OpImm(R.AluOp.OR, Reg(i.rdRs2), Reg(i.rs1), Signed(i.imm))
    case _ => R.OpImm(R.AluOp.AND, Reg(i.rdRs2), Reg(i.rs1), Signed(i.imm))
  }

  function AluOf(func: bv16): Option<R.AluOp> {
    match func
    case 0 => Some(R.ADD)
    case 1 => Some(R.SUB)
    case 2 => Some(R.SLL)
    case 3 => Some(R.SLT)
    case 4 => Some(R.SLTU)
    case 5 => Some(R.AluOp.XOR)
    case 6 => Some(R.SRL)
    case 7 => Some(R.SRA)
    case 8 => Some(R.AluOp.OR)
    case 9 => Some(R.AluOp.AND)
    case 10 => Some(R.MUL)
    case 11 => Some(R.MULH)
    case 12 => Some(R.MULHSU)
    case 13 => Some(R.MULHU)
    case 14 => Some(R.DIV)
    case 15 => Some(R.DIVU)
    case 16 => Some(R.REM)
    case 17 => Some(R.REMU)
    case _ => None
  }

  function AmoOf(func: bv16): Option<R.AmoOp> {
    match func
    case 20 => Some(R.SWAP)
    case 21 => Some(R.PLUS)
    case 22 => Some(R.AmoOp.XOR)
    case 23 => Some(R.AmoOp.AND)
    case 24 => Some(R.AmoOp.OR)
    case 25 => Some(R.MIN)
    case 26 => Some(R.MAX)
    case 27 => Some(R.MINU)
    case 28 => Some(R.MAXU)
    case _ => None
  }

  function OpAmoMeaning(r: TypeR): R.Instr {
    if AluOf(r.func).Some? then R.Op(AluOf(r.func).value, Reg(r.rd), Reg(r.rs1), Reg(r.rs2))
    else if r.func == 18 then R.LoadReserved(Reg(r.rd), Reg(r.rs1))
    else if r.func == 19 then R.StoreConditional(Reg(r.rd), Reg(r.rs1), Reg(r.rs2))
    else if AmoOf(r.func).Some? then R.Amo(AmoOf(r.func).value, Reg(r.rd), Reg(r.rs1), Reg(r.rs2))
    else R.Illegal
  }

  /** The address field of a CSR instruction. */
  function Low12(imm: bv32): bv32 { imm & 0xFFF }

  function SystemMeaning(i: TypeI): R.Instr {
    match i.func
    case 0 =>
      (match i.imm
       case 0 => R.Ecall
       case 1 => R.Ebreak
       case 2 => R.Fence
       case 3 => R.Wfi
       case 4 => R.Mret
       case _ => R.Illegal)
    case 1 => R.Csr(R.RW, Reg(i.rdRs2), R.Register(Reg(i.rs1)), Low12(i.imm))
    case 2 => R.Csr(R.RS, Reg(i.rdRs2), R.Register(Reg(i.rs1)), Low12(i.imm))
    case 3 => R.Csr(R.RC, Reg(i.rdRs2), R.Register(Reg(i.rs1)), Low12(i.imm))
    case 4 => R.Csr(R.RW, Reg(i.rdRs2), R.Immediate(i.rs1 as bv32), Low12(i.imm))
    case 5 => R.Csr(R.RS, Reg(i.rdRs2), R.Immediate(i.rs1 as bv32), Low12(i.imm))
    case 6 => R.Csr(R.RC, Reg(i.rdRs2), R.Immediate(i.rs1 as bv32), Low12(i.imm))
    case _ => R.Illegal
  }

  function JrMvMeaning(cr: TypeCR): R.Instr {
    if cr.rs2 == 0 then R.Jalr(0, Reg(cr.rdRs1), 0) else R.Op(R.ADD, Reg(cr.rdRs1), 0, Reg(cr.rs2))
  }

  function EbreakJalrAddMeaning(cr: TypeCR): R.Instr {
    if cr.rs2 == 0 then
      if cr.rdRs1 == 0 then R.Ebreak else R.Jalr(1, Reg(cr.rdRs1), 0)
    else
      R.Op(R.ADD, Reg(cr.rdRs1), Reg(cr.rdRs1), Reg(cr.rs2))
  }

  /** The base instruction that an Embive instruction stands for. */
  function Mean(e: Instruction): R.Instr {
    match e
    case CAddi4spn(ciw) => if ciw.imm == 0 then R.Illegal else R.OpImm(R.ADD, Reg(ciw.rd), 2, Signed(ciw.imm))
    case CLw(cl) => R.Load(R.LW, Reg(cl.rdRs2), Reg(cl.rs1), Signed(cl.imm))
    case CSw(cl) => R.Store(R.SW, Reg(cl.rs1), Reg(cl.rdRs2), Signed(cl.imm))
    case CAddi(ci1) => R.OpImm(R.ADD, Reg(ci1.rdRs1), Reg(ci1.rdRs1), Signed(ci1.imm))
    case CJal(cj) => R.Jal(1, Signed(cj.imm))
    case CLi(ci1) => R.OpImm(R.ADD, Reg(ci1.rdRs1), 0, Signed(ci1.imm))
    case CAddi16sp(ci2) => R.OpImm(R.ADD, 2, 2, Signed(ci2.imm))
    case CLui(ci3) => R.Lui(Reg(ci3.rdRs1), Signed(ci3.imm))
    case CSrli(cb1) => R.OpImm(R.SRL, Reg(cb1.rdRs1), Reg(cb1.rdRs1), Signed(cb1.imm))
    case CSrai(cb1) => R.OpImm(R.SRA, Reg(cb1.rdRs1), Reg(cb1.rdRs1), Signed(cb1.imm))
    case CAndi(cb2) => R.OpImm(R.AluOp.AND, Reg(cb2.rdRs1), Reg(cb2.rdRs1), Signed(cb2.imm))
    case CSub(cs) => R.Op(R.SUB, Reg(cs.rdRs1), Reg(cs.rdRs1), Reg(cs.rs2))
    case CXor(cs) => R.Op(R.AluOp.XOR, Reg(cs.rdRs1), Reg(cs.rdRs1), Reg(cs.rs2))
    case COr(cs) => R.Op(R.AluOp.OR, Reg(cs.rdRs1), Reg(cs.rdRs1), Reg(cs.rs2))
    case CAnd(cs) => R.Op(R.AluOp.AND, Reg(cs.rdRs1), Reg(cs.rdRs1), Reg(cs.rs2))
    case CJ(cj) => R.Jal(0, Signed(cj.imm))
    case CBeqz(cb4) => R.Branch(R.EQ, Reg(cb4.rs1), 0, Signed(cb4.imm))
    case CBnez(cb4) => R.Branch(R.NE, Reg(cb4.rs1), 0, Signed(cb4.imm))
    case CSlli(ci4) => R.OpImm(R.SLL, Reg(ci4.rdRs1), Reg(ci4.rdRs1), Signed(ci4.imm))
    case CLwsp(ci5) => R.Load(R.LW, Reg(ci5.rdRs1), 2, Signed(ci5.imm))
    case CJrMv(cr) => JrMvMeaning(cr)
    case CEbreakJalrAdd(cr) => EbreakJalrAddMeaning(cr)
    case CSwsp(css) => R.Store(R.SW, 2, Reg(css.rs2), Signed(css.imm))
    case Auipc(u) => R.Auipc(Reg(u.rd), Signed(u.imm))
    case Branch(b) => BranchMeaning(b)
    case Jal(j) => R.Jal(Reg(j.rd), Signed(j.imm))
    case Jalr(i) => R.Jalr(Reg(i.rdRs2), Reg(i.rs1), Signed(i.imm))
    case LoadStore(i) => LoadStoreMeaning(i)
    case Lui(u) => R.Lui(Reg(u.rd), Signed(u.imm))
    case OpImm(i) => OpImmMeaning(i)
    case OpAmo(r) => OpAmoMeaning(r)
    case SystemMiscMem(i) => SystemMeaning(i)
  }

  /** `c` is a word of the given size that decodes to an instruction that means `r`. */
  predicate Means(c: Conversion, size: Size, r: R.Instr) {
    c.Success? && c.value.size == size && Decodes(c.value.data, size, r)
  }

  predicate Decodes(data: bv32, size: Size, r: R.Instr) {
    match Decode(data)
    case Some(e) => e.Encodable() && e.Size() == size && Mean(e) == r
    case None => false
  }

  lemma Conclude(data: bv32, e: Instruction, r: R.Instr)
    requires Decode(data) == Some(e) && e.Encodable() && Mean(e) == r
    ensures Means(Success(RawInstruction(data, e.Size())), e.Size(), r)
  {
    hide Decode, Mean, Instruction.Encodable, Instruction.Size;
  }

  // Register fields.

  lemma FieldReg(v: bv32)
    ensures Reg(Field5(v)) == Nat(v & 0x1F)
  {
    assert Field5(v) as bv32 == v & 0x1F;
  }

  lemma CompressedBits(v: bv32, c: bv32)
    requires c == (v & 0x7) + 8
    ensures Bit(c, 0) == Bit(v & 0x7, 0) && Bit(c, 1) == Bit(v & 0x7, 1) && Bit(c, 2) == Bit(v & 0x7, 2)
    ensures Bit(c, 3) == 1 && Bit(c, 4) == Bit(c, 5) == Bit(c, 6) == Bit(c, 7) == 0 && c >> 8 == 0
    ensures Bit(v & 0x7, 3) == Bit(v & 0x7, 4) == Bit(v & 0x7, 5) == Bit(v & 0x7, 6) == Bit(v & 0x7, 7) == 0
    ensures (v & 0x7) >> 8 == 0
  {
  }

  lemma CompressedNat(v: bv32, c: bv32)
    requires c == (v & 0x7) + 8
    ensures Nat(c) == 8 + Nat(v & 0x7)
  {
    hide Bit;
    CompressedBits(v, c);
    NatOctet(c, 0);
    NatOctet(v & 0x7, 0);
  }

  lemma CompressedReg(v: bv32)
    ensures Reg(CompressedRegister(v)) == 8 + Nat(v & 0x7)
  {
    assert CompressedRegister(v) as bv32 == (v & 0x7) + 8;
    CompressedNat(v, (v & 0x7) + 8);
  }

  // The fields of each format, as numbers.

  lemma FieldsR(w: bv32)
    ensures Reg(TypeR.FromRiscv(w).rd) == R.Rd(w)
    ensures Reg(TypeR.FromRiscv(w).rs1) == R.Rs1(w)
    ensures Reg(TypeR.FromRiscv(w).rs2) == R.Rs2(w)
  {
    hide Nat, Bit, Signed;
    FieldReg(w >> 7);
    FieldReg(w >> 15);
    FieldReg(w >> 20);
  }

  lemma FieldsI(w: bv32)
    ensures Reg(TypeI.FromRiscv(w).rdRs2) == R.Rd(w)
    ensures Reg(TypeI.FromRiscv(w).rs1) == R.Rs1(w)
    ensures Signed(TypeI.FromRiscv(w).imm) == R.ImmI(w)
  {
    hide Nat, Bit, Signed;
    FieldReg(w >> 7);
    FieldReg(w >> 15);
    IValue(w);
  }

  lemma FieldsS(w: bv32)
    ensures Reg(TypeS.FromRiscv(w).rs1) == R.Rs1(w)
    ensures Reg(TypeS.FromRiscv(w).rs2) == R.Rs2(w)
    ensures Signed(TypeS.FromRiscv(w).imm) == R.ImmS(w)
  {
    hide Nat, Bit, Signed;
    FieldReg(w >> 15);
    FieldReg(w >> 20);
    SValue(w);
  }

  lemma FieldsB(w: bv32)
    ensures Reg(TypeB.FromRiscv(w).rs1) == R.Rs1(w)
    ensures Reg(TypeB.FromRiscv(w).rs2) == R.Rs2(w)
    ensures Signed(TypeB.FromRiscv(w).imm) == R.ImmB(w)
  {
    hide Nat, Bit, Signed;
    FieldReg(w >> 15);
    FieldReg(w >> 20);
    BValue(w);
  }

  lemma FieldsU(w: bv32)
    ensures Reg(TypeU.FromRiscv(w).rd) == R.Rd(w)
    ensures Signed(TypeU.FromRiscv(w).imm) == R.ImmU(w)
  {
    hide Nat, Bit, Signed;
    FieldReg(w >> 7);
    UValue(w);
  }

  lemma FieldsJ(w: bv32)
    ensures Reg(TypeJ.FromRiscv(w).rd) == R.Rd(w)
    ensures Signed(TypeJ.FromRiscv(w).imm) == R.ImmJ(w)
  {
    hide Nat, Bit, Signed;
    FieldReg(w >> 7);
    JValue(w);
  }

  lemma FieldsCIW(w: bv32)
    ensures Reg(TypeCIW.FromRiscv(w).rd) == R.CLow(w)
    ensures Signed(TypeCIW.FromRiscv(w).imm) == R.ImmCiw(w)
  {
    hide Nat, Bit, Signed;
    CompressedReg(w >> 2);
    CIWValue(w);
  }

  lemma FieldsCL(w: bv32)
    ensures Reg(TypeCL.FromRiscv(w).rdRs2) == R.CLow(w)
    ensures Reg(TypeCL.FromRiscv(w).rs1) == R.CHigh(w)
    ensures Signed(TypeCL.FromRiscv(w).imm) == R.ImmCl(w)
  {
    hide Nat, Bit, Signed;
    CompressedReg(w >> 2);
    CompressedReg(w >> 7);
    CLValue(w);
  }

  lemma FieldsCI1(w: bv32)
    ensures Reg(TypeCI1.FromRiscv(w).rdRs1) == R.Rd(w)
    ensures Signed(TypeCI1.FromRiscv(w).imm) == R.ImmCi(w)
  {
    hide Nat, Bit, Signed;
    FieldReg(w >> 7);
    CI1Value(w);
  }

  lemma FieldsCI3(w: bv32)
    ensures Reg(TypeCI3.FromRiscv(w).rdRs1) == R.Rd(w)
    ensures Signed(TypeCI3.FromRiscv(w).imm) == 4096 * R.ImmCi(w)
  {
    hide Nat, Bit, Signed;
    FieldReg(w >> 7);
    CI3Value(w);
  }

  lemma FieldsCI4(w: bv32)
    ensures Reg(TypeCI4.FromRiscv(w).rdRs1) == R.Rd(w)
    ensures Signed(TypeCI4.FromRiscv(w).imm) == 32 * Bit(w, 12) + R.Bits6To2(w)
  {
    hide Nat, Bit, Signed;
    FieldReg(w >> 7);
    CI4Value(w);
  }

  lemma FieldsCI5(w: bv32)
    ensures Reg(TypeCI5.FromRiscv(w).rdRs1) == R.Rd(w)
    ensures Signed(TypeCI5.FromRiscv(w).imm) == R.ImmCiLwsp(w)
  {
    hide Nat, Bit, Signed;
    FieldReg(w >> 7);
    CI5Value(w);
  }

  lemma FieldsCB1(w: bv32)
    ensures Reg(TypeCB1.FromRiscv(w).rdRs1) == R.CHigh(w)
    ensures Signed(TypeCB1.FromRiscv(w).imm) == 32 * Bit(w, 12) + R.Bits6To2(w)
  {
    hide Nat, Bit, Signed;
    CompressedReg(w >> 7);
    CB1Value(w);
  }

  lemma FieldsCB2(w: bv32)
    ensures Reg(TypeCB2.FromRiscv(w).rdRs1) == R.CHigh(w)
    ensures Signed(TypeCB2.FromRiscv(w).imm) == R.ImmCi(w)
  {
    hide Nat, Bit, Signed;
    CompressedReg(w >> 7);
    CB2Value(w);
  }

  lemma FieldsCB4(w: bv32)
    ensures Reg(TypeCB4.FromRiscv(w).rs1) == R.CHigh(w)
    ensures Signed(TypeCB4.FromRiscv(w).imm) == R.ImmCb(w)
  {
    hide Nat, Bit, Signed;
    CompressedReg(w >> 7);
    CB4Value(w);
  }

  lemma FieldsCR(w: bv32)
    ensures Reg(TypeCR.FromRiscv(w).rdRs1) == R.Rd(w)
    ensures Reg(TypeCR.FromRiscv(w).rs2) == R.CRs2(w)
  {
    hide Nat, Bit, Signed;
    FieldReg(w >> 7);
    FieldReg(w >> 2);
  }

  lemma FieldsCS(w: bv32)
    ensures Reg(TypeCS.FromRiscv(w).rdRs1) == R.CHigh(w)
    ensures Reg(TypeCS.FromRiscv(w).rs2) == R.CLow(w)
  {
    hide Nat, Bit, Signed;
    CompressedReg(w >> 7);
    CompressedReg(w >> 2);
  }

  lemma FieldsCSS(w: bv32)
    ensures Reg(TypeCSS.FromRiscv(w).rs2) == R.CRs2(w)
    ensures Signed(TypeCSS.FromRiscv(w).imm) == R.ImmCss(w)
  {
    hide Nat, Bit, Signed;
    FieldReg(w >> 2);
    CSSValue(w);
  }

  // Instructions whose opcode alone decides what they are.

  lemma AuipcMeans(w: bv32)
    ensures Means(Full(TypeU.FromRiscv(w).ToEmbive(), AUIPC), WordSize, R.Auipc(R.Rd(w), R.ImmU(w)))
  {
    hide Reg, Signed, Decode, Means, TypeU.FromRiscv, TypeU.ToEmbive, TypeU.Encodable, R.ImmU, R.Rd;
    var t := TypeU.FromRiscv(w);
    TypeU.Fits(w);
    AuipcRoundTrip(t);
    FieldsU(w);
    Conclude(t.ToEmbive() | AUIPC, Auipc(t), R.Auipc(R.Rd(w), R.ImmU(w)));
  }

  lemma LuiMeans(w: bv32)
    ensures Means(Full(TypeU.FromRiscv(w).ToEmbive(), LUI), WordSize, R.Lui(R.Rd(w), R.ImmU(w)))
  {
    hide Reg, Signed, Decode, Means, TypeU.FromRiscv, TypeU.ToEmbive, TypeU.Encodable, R.ImmU, R.Rd;
    var t := TypeU.FromRiscv(w);
    TypeU.Fits(w);
    LuiRoundTrip(t);
    FieldsU(w);
    Conclude(t.ToEmbive() | LUI, Lui(t), R.Lui(R.Rd(w), R.ImmU(w)));
  }

  lemma JalMeans(w: bv32)
    ensures Means(Full(TypeJ.FromRiscv(w).ToEmbive(), JAL), WordSize, R.Jal(R.Rd(w), R.ImmJ(w)))
  {
    hide Reg, Signed, Decode, Means, TypeJ.FromRiscv, TypeJ.ToEmbive, TypeJ.Encodable, R.ImmJ, R.Rd;
    var t := TypeJ.FromRiscv(w);
    TypeJ.Fits(w);
    JalRoundTrip(t);
    FieldsJ(w);
    Conclude(t.ToEmbive() | JAL, Jal(t), R.Jal(R.Rd(w), R.ImmJ(w)));
  }

  lemma JalrMeans(w: bv32)
    ensures Means(Full(TypeI.FromRiscv(w).ToEmbive(), JALR), WordSize, R.Jalr(R.Rd(w), R.Rs1(w), R.ImmI(w)))
  {
    hide Reg, Signed, Decode, Means, TypeI.FromRiscv, TypeI.ToEmbive, TypeI.Encodable, R.ImmI, R.Rd, R.Rs1;
    var t := TypeI.FromRiscv(w);
    TypeI.Fits(w);
    JalrRoundTrip(t);
    FieldsI(w);
    Conclude(t.ToEmbive() | JALR, Jalr(t), R.Jalr(R.Rd(w), R.Rs1(w), R.ImmI(w)));
  }

  lemma CLwMeans(w: bv32)
    ensures Means(Half(TypeCL.FromRiscv(w).ToEmbive(), C_LW), HalfSize, R.Load(R.LW, R.CLow(w), R.CHigh(w), R.ImmCl(w)))
  {
    hide Reg, Signed, Decode, Means, TypeCL.FromRiscv, TypeCL.ToEmbive, TypeCL.Encodable, R.CHigh, R.CLow,
      R.ImmCl;
    var t := TypeCL.FromRiscv(w);
    TypeCL.Fits(w);
    CLwRoundTrip(t);
    FieldsCL(w);
    Conclude(t.ToEmbive() | C_LW, CLw(t), R.Load(R.LW, R.CLow(w), R.CHigh(w), R.ImmCl(w)));
  }

  lemma CSwMeans(w: bv32)
    ensures Means(Half(TypeCL.FromRiscv(w).ToEmbive(), C_SW), HalfSize,
             R.Store(R.SW, R.CHigh(w), R.CLow(w), R.ImmCl(w)))
  {
    hide Reg, Signed, Decode, Means, TypeCL.FromRiscv, TypeCL.ToEmbive, TypeCL.Encodable, R.CHigh, R.CLow,
      R.ImmCl;
    var t := TypeCL.FromRiscv(w);
    TypeCL.Fits(w);
    CSwRoundTrip(t);
    FieldsCL(w);
    Conclude(t.ToEmbive() | C_SW, CSw(t), R.Store(R.SW, R.CHigh(w), R.CLow(w), R.ImmCl(w)));
  }

  lemma CAddiMeans(w: bv32)
    ensures Means(Half(TypeCI1.FromRiscv(w).ToEmbive(), C_ADDI), HalfSize, R.OpImm(R.ADD, R.Rd(w), R.Rd(w), R.ImmCi(w)))
  {
    hide Reg, Signed, Decode, Means, TypeCI1.FromRiscv, TypeCI1.ToEmbive, TypeCI1.Encodable, R.ImmCi, R.Rd;
    var t := TypeCI1.FromRiscv(w);
    TypeCI1.Fits(w);
    CAddiRoundTrip(t);
    FieldsCI1(w);
    Conclude(t.ToEmbive() | C_ADDI, CAddi(t), R.OpImm(R.ADD, R.Rd(w), R.Rd(w), R.ImmCi(w)));
  }

  lemma CLiMeans(w: bv32)
    ensures Means(Half(TypeCI1.FromRiscv(w).ToEmbive(), C_LI), HalfSize, R.OpImm(R.ADD, R.Rd(w), 0, R.ImmCi(w)))
  {
    hide Reg, Signed, Decode, Means, TypeCI1.FromRiscv, TypeCI1.ToEmbive, TypeCI1.Encodable, R.ImmCi, R.Rd;
    var t := TypeCI1.FromRiscv(w);
    TypeCI1.Fits(w);
    CLiRoundTrip(t);
    FieldsCI1(w);
    Conclude(t.ToEmbive() | C_LI, CLi(t), R.OpImm(R.ADD, R.Rd(w), 0, R.ImmCi(w)));
  }

  lemma CLuiMeans(w: bv32)
    ensures Means(Half(TypeCI3.FromRiscv(w).ToEmbive(), C_LUI), HalfSize, R.Lui(R.Rd(w), 4096 * R.ImmCi(w)))
  {
    hide Reg, Signed, Decode, Means, TypeCI3.FromRiscv, TypeCI3.ToEmbive, TypeCI3.Encodable, R.ImmCi, R.Rd;
    var t := TypeCI3.FromRiscv(w);
    TypeCI3.Fits(w);
    CLuiRoundTrip(t);
    FieldsCI3(w);
    Conclude(t.ToEmbive() | C_LUI, CLui(t), R.Lui(R.Rd(w), 4096 * R.ImmCi(w)));
  }

  lemma CAndiMeans(w: bv32)
    ensures Means(Half(TypeCB2.FromRiscv(w).ToEmbive(), C_ANDI), HalfSize,
             R.OpImm(R.AluOp.AND, R.CHigh(w), R.CHigh(w), R.ImmCi(w)))
  {
    hide Reg, Signed, Decode, Means, TypeCB2.FromRiscv, TypeCB2.ToEmbive, TypeCB2.Encodable, R.CHigh, R.ImmCi;
    var t := TypeCB2.FromRiscv(w);
    TypeCB2.Fits(w);
    CAndiRoundTrip(t);
    FieldsCB2(w);
    Conclude(t.ToEmbive() | C_ANDI, CAndi(t), R.OpImm(R.AluOp.AND, R.CHigh(w), R.CHigh(w), R.ImmCi(w)));
  }

  lemma CSubMeans(w: bv32)
    ensures Means(Half(TypeCS.FromRiscv(w).ToEmbive(), C_SUB), HalfSize, R.Op(R.SUB, R.CHigh(w), R.CHigh(w), R.CLow(w)))
  {
    hide Reg, Signed, Decode, Means, TypeCS.FromRiscv, TypeCS.ToEmbive, TypeCS.Encodable, R.CHigh, R.CLow;
    var t := TypeCS.FromRiscv(w);
    TypeCS.Fits(w);
    CSubRoundTrip(t);
    FieldsCS(w);
    Conclude(t.ToEmbive() | C_SUB, CSub(t), R.Op(R.SUB, R.CHigh(w), R.CHigh(w), R.CLow(w)));
  }

  lemma CXorMeans(w: bv32)
    ensures Means(Half(TypeCS.FromRiscv(w).ToEmbive(), C_XOR), HalfSize,
             R.Op(R.AluOp.XOR, R.CHigh(w), R.CHigh(w), R.CLow(w)))
  {
    hide Reg, Signed, Decode, Means, TypeCS.FromRiscv, TypeCS.ToEmbive, TypeCS.Encodable, R.CHigh, R.CLow;
    var t := TypeCS.FromRiscv(w);
    TypeCS.Fits(w);
    CXorRoundTrip(t);
    FieldsCS(w);
    Conclude(t.ToEmbive() | C_XOR, CXor(t), R.Op(R.AluOp.XOR, R.CHigh(w), R.CHigh(w), R.CLow(w)));
  }

  lemma COrMeans(w: bv32)
    ensures Means(Half(TypeCS.FromRiscv(w).ToEmbive(), C_OR), HalfSize,
             R.Op(R.AluOp.OR, R.CHigh(w), R.CHigh(w), R.CLow(w)))
  {
    hide Reg, Signed, Decode, Means, TypeCS.FromRiscv, TypeCS.ToEmbive, TypeCS.Encodable, R.CHigh, R.CLow;
    var t := TypeCS.FromRiscv(w);
    TypeCS.Fits(w);
    COrRoundTrip(t);
    FieldsCS(w);
    Conclude(t.ToEmbive() | C_OR, COr(t), R.Op(R.AluOp.OR, R.CHigh(w), R.CHigh(w), R.CLow(w)));
  }

  lemma CAndMeans(w: bv32)
    ensures Means(Half(TypeCS.FromRiscv(w).ToEmbive(), C_AND), HalfSize,
             R.Op(R.AluOp.AND, R.CHigh(w), R.CHigh(w), R.CLow(w)))
  {
    hide Reg, Signed, Decode, Means, TypeCS.FromRiscv, TypeCS.ToEmbive, TypeCS.Encodable, R.CHigh, R.CLow;
    var t := TypeCS.FromRiscv(w);
    TypeCS.Fits(w);
    CAndRoundTrip(t);
    FieldsCS(w);
    Conclude(t.ToEmbive() | C_AND, CAnd(t), R.Op(R.AluOp.AND, R.CHigh(w), R.CHigh(w), R.CLow(w)));
  }

  lemma CBeqzMeans(w: bv32)
    ensures Means(Half(TypeCB4.FromRiscv(w).ToEmbive(), C_BEQZ), HalfSize, R.Branch(R.EQ, R.CHigh(w), 0, R.ImmCb(w)))
  {
    hide Reg, Signed, Decode, Means, TypeCB4.FromRiscv, TypeCB4.ToEmbive, TypeCB4.Encodable, R.CHigh, R.ImmCb;
    var t := TypeCB4.FromRiscv(w);
    TypeCB4.Fits(w);
    CBeqzRoundTrip(t);
    FieldsCB4(w);
    Conclude(t.ToEmbive() | C_BEQZ, CBeqz(t), R.Branch(R.EQ, R.CHigh(w), 0, R.ImmCb(w)));
  }

  lemma CBnezMeans(w: bv32)
    ensures Means(Half(TypeCB4.FromRiscv(w).ToEmbive(), C_BNEZ), HalfSize, R.Branch(R.NE, R.CHigh(w), 0, R.ImmCb(w)))
  {
    hide Reg, Signed, Decode, Means, TypeCB4.FromRiscv, TypeCB4.ToEmbive, TypeCB4.Encodable, R.CHigh, R.ImmCb;
    var t := TypeCB4.FromRiscv(w);
    TypeCB4.Fits(w);
    CBnezRoundTrip(t);
    FieldsCB4(w);
    Conclude(t.ToEmbive() | C_BNEZ, CBnez(t), R.Branch(R.NE, R.CHigh(w), 0, R.ImmCb(w)));
  }

  lemma CLwspMeans(w: bv32)
    ensures Means(Half(TypeCI5.FromRiscv(w).ToEmbive(), C_LWSP), HalfSize, R.Load(R.LW, R.Rd(w), 2, R.ImmCiLwsp(w)))
  {
    hide Reg, Signed, Decode, Means, TypeCI5.FromRiscv, TypeCI5.ToEmbive, TypeCI5.Encodable, R.ImmCiLwsp, R.Rd;
    var t := TypeCI5.FromRiscv(w);
    TypeCI5.Fits(w);
    CLwspRoundTrip(t);
    FieldsCI5(w);
    Conclude(t.ToEmbive() | C_LWSP, CLwsp(t), R.Load(R.LW, R.Rd(w), 2, R.ImmCiLwsp(w)));
  }

  lemma CSwspMeans(w: bv32)
    ensures Means(Half(TypeCSS.FromRiscv(w).ToEmbive(), C_SWSP), HalfSize, R.Store(R.SW, 2, R.CRs2(w), R.ImmCss(w)))
  {
    hide Reg, Signed, Decode, Means, TypeCSS.FromRiscv, TypeCSS.ToEmbive, TypeCSS.Encodable, R.CRs2, R.ImmCss;
    var t := TypeCSS.FromRiscv(w);
    TypeCSS.Fits(w);
    CSwspRoundTrip(t);
    FieldsCSS(w);
    Conclude(t.ToEmbive() | C_SWSP, CSwsp(t), R.Store(R.SW, 2, R.CRs2(w), R.ImmCss(w)));
  }

  lemma CSrliMeans(w: bv32)
    ensures Means(Half(TypeCB1.FromRiscv(w).ToEmbive(), C_SRLI), HalfSize,
             R.OpImm(R.SRL, R.CHigh(w), R.CHigh(w), 32 * Bit(w, 12) + R.Bits6To2(w)))
  {
    hide Reg, Signed, Decode, Means, TypeCB1.FromRiscv, TypeCB1.ToEmbive, TypeCB1.Encodable, R.CHigh,
      R.Bits6To2, Bit;
    var t := TypeCB1.FromRiscv(w);
    TypeCB1.Fits(w);
    CSrliRoundTrip(t);
    FieldsCB1(w);
    Conclude(t.ToEmbive() | C_SRLI, CSrli(t),
             R.OpImm(R.SRL, R.CHigh(w), R.CHigh(w), 32 * Bit(w, 12) + R.Bits6To2(w)));
  }

  lemma CSraiMeans(w: bv32)
    ensures Means(Half(TypeCB1.FromRiscv(w).ToEmbive(), C_SRAI), HalfSize,
             R.OpImm(R.SRA, R.CHigh(w), R.CHigh(w), 32 * Bit(w, 12) + R.Bits6To2(w)))
  {
    hide Reg, Signed, Decode, Means, TypeCB1.FromRiscv, TypeCB1.ToEmbive, TypeCB1.Encodable, R.CHigh,
      R.Bits6To2, Bit;
    var t := TypeCB1.FromRiscv(w);
    TypeCB1.Fits(w);
    CSraiRoundTrip(t);
    FieldsCB1(w);
    Conclude(t.ToEmbive() | C_SRAI, CSrai(t),
             R.OpImm(R.SRA, R.CHigh(w), R.CHigh(w), 32 * Bit(w, 12) + R.Bits6To2(w)));
  }

  lemma CSlliMeans(w: bv32)
    ensures Means(Half(TypeCI4.FromRiscv(w).ToEmbive(), C_SLLI), HalfSize,
             R.OpImm(R.SLL, R.Rd(w), R.Rd(w), 32 * Bit(w, 12) + R.Bits6To2(w)))
  {
    hide Reg, Signed, Decode, Means, TypeCI4.FromRiscv, TypeCI4.ToEmbive, TypeCI4.Encodable, R.Rd, R.Bits6To2,
      Bit;
    var t := TypeCI4.FromRiscv(w);
    TypeCI4.Fits(w);
    CSlliRoundTrip(t);
    FieldsCI4(w);
    Conclude(t.ToEmbive() | C_SLLI, CSlli(t),
             R.OpImm(R.SLL, R.Rd(w), R.Rd(w), 32 * Bit(w, 12) + R.Bits6To2(w)));
  }

  lemma CAddi16spMeans(w: bv32)
    ensures Means(Half(TypeCI2.FromRiscv(w).ToEmbive(), C_ADDI16SP), HalfSize, R.OpImm(R.ADD, 2, 2, R.ImmCiAddi16sp(w)))
  {
    hide Reg, Signed, Decode, Means, TypeCI2.FromRiscv, TypeCI2.ToEmbive, TypeCI2.Encodable, R.ImmCiAddi16sp;
    var t := TypeCI2.FromRiscv(w);
    TypeCI2.Fits(w);
    CAddi16spRoundTrip(t);
    CI2Value(w);
    Conclude(t.ToEmbive() | C_ADDI16SP, CAddi16sp(t), R.OpImm(R.ADD, 2, 2, R.ImmCiAddi16sp(w)));
  }

  lemma CJalMeans(w: bv32)
    ensures Means(Half(TypeCJ.FromRiscv(w).ToEmbive(), C_JAL), HalfSize, R.Jal(1, R.ImmCj(w)))
  {
    hide Reg, Signed, Decode, Means, TypeCJ.FromRiscv, TypeCJ.ToEmbive, TypeCJ.Encodable, R.ImmCj;
    var t := TypeCJ.FromRiscv(w);
    TypeCJ.Fits(w);
    CJalRoundTrip(t);
    CJValue(w);
    Conclude(t.ToEmbive() | C_JAL, CJal(t), R.Jal(1, R.ImmCj(w)));
  }

  lemma CJMeans(w: bv32)
    ensures Means(Half(TypeCJ.FromRiscv(w).ToEmbive(), C_J), HalfSize, R.Jal(0, R.ImmCj(w)))
  {
    hide Reg, Signed, Decode, Means, TypeCJ.FromRiscv, TypeCJ.ToEmbive, TypeCJ.Encodable, R.ImmCj;
    var t := TypeCJ.FromRiscv(w);
    TypeCJ.Fits(w);
    CJRoundTrip(t);
    CJValue(w);
    Conclude(t.ToEmbive() | C_J, CJ(t), R.Jal(0, R.ImmCj(w)));
  }

  lemma SignedZero(w: bv32)
    ensures Signed(w) == 0 <==> w == 0
  {
    if Nat(w) == 0 {
      NatZero(w);
    }
  }

  /** A zero immediate makes C.ADDI4SPN an illegal instruction. */
  lemma CAddi4spnMeans(w: bv32)
    ensures Means(Half(TypeCIW.FromRiscv(w).ToEmbive(), C_ADDI4SPN), HalfSize,
                  if R.ImmCiw(w) == 0 then R.Illegal else R.OpImm(R.ADD, R.CLow(w), 2, R.ImmCiw(w)))
  {
    hide Reg, Signed, Decode, Means, TypeCIW.FromRiscv, TypeCIW.ToEmbive, TypeCIW.Encodable, R.ImmCiw, R.CLow;
    var t := TypeCIW.FromRiscv(w);
    TypeCIW.Fits(w);
    CAddi4spnRoundTrip(t);
    FieldsCIW(w);
    SignedZero(t.imm);
    Conclude(t.ToEmbive() | C_ADDI4SPN, CAddi4spn(t),
             if R.ImmCiw(w) == 0 then R.Illegal else R.OpImm(R.ADD, R.CLow(w), 2, R.ImmCiw(w)));
  }

  lemma CrBits(w: bv32)
    ensures TypeCR.FromRiscv(w).rs2 == 0 <==> (w >> 2) & 0x1F == 0
    ensures TypeCR.FromRiscv(w).rdRs1 == 0 <==> (w >> 7) & 0x1F == 0
  {
  }

  lemma CJrMvMeans(w: bv32)
    ensures Means(Half(TypeCR.FromRiscv(w).ToEmbive(), C_JR_MV), HalfSize,
                  if (w >> 2) & 0x1F == 0 then R.Jalr(0, R.Rd(w), 0) else R.Op(R.ADD, R.Rd(w), 0, R.CRs2(w)))
  {
    hide Reg, Decode, Means, TypeCR.FromRiscv, TypeCR.ToEmbive, TypeCR.Encodable, R.Rd, R.CRs2;
    var t := TypeCR.FromRiscv(w);
    TypeCR.Fits(w);
    CJrMvRoundTrip(t);
    FieldsCR(w);
    CrBits(w);
    Conclude(t.ToEmbive() | C_JR_MV, CJrMv(t),
             if (w >> 2) & 0x1F == 0 then R.Jalr(0, R.Rd(w), 0) else R.Op(R.ADD, R.Rd(w), 0, R.CRs2(w)));
  }

  function EbreakJalrAdd(w: bv32): R.Instr {
    if (w >> 2) & 0x1F == 0 then
      if (w >> 7) & 0x1F == 0 then R.Ebreak else R.Jalr(1, R.Rd(w), 0)
    else
      R.Op(R.ADD, R.Rd(w), R.Rd(w), R.CRs2(w))
  }

  lemma CEbreakJalrAddMeans(w: bv32)
    ensures Means(Half(TypeCR.FromRiscv(w).ToEmbive(), C_EBREAK_JALR_ADD), HalfSize, EbreakJalrAdd(w))
  {
    hide Reg, Decode, Means, TypeCR.FromRiscv, TypeCR.ToEmbive, TypeCR.Encodable, R.Rd, R.CRs2;
    var t := TypeCR.FromRiscv(w);
    TypeCR.Fits(w);
    CEbreakJalrAddRoundTrip(t);
    FieldsCR(w);
    CrBits(w);
    Conclude(t.ToEmbive() | C_EBREAK_JALR_ADD, CEbreakJalrAdd(t), EbreakJalrAdd(w));
  }

  // Instructions with function fields: the renumbered field selects the same operation.

  lemma LoadFuncs(w: bv32, k: R.LoadKind)
    requires R.LoadKindOf(w) == Some(k)
    ensures LoadFunc(TypeI.FromRiscv(w).func)
         == Some(match k case LB => 0 case LH => 1 case LW => 2 case LBU => 3 case LHU => 4)
  {
  }

  lemma LoadKept(i: TypeI, k: R.LoadKind)
    requires i.func == match k case LB => 0 case LH => 1 case LW => 2 case LBU => 3 case LHU => 4
    ensures Mean(LoadStore(i)) == R.Load(k, Reg(i.rdRs2), Reg(i.rs1), Signed(i.imm))
  {
  }

  lemma FuncFits(w: bv32, i: TypeI)
    requires i == TypeI.FromRiscv(w).(func := i.func) && i.func < 8
    ensures i.Encodable()
  {
    TypeI.Fits(w);
  }

  lemma LoadMeans(w: bv32, k: R.LoadKind)
    requires R.LoadKindOf(w) == Some(k)
    ensures Means(Load(w), WordSize, R.Load(k, R.Rd(w), R.Rs1(w), R.ImmI(w)))
  {
    hide Reg, Signed, Decode, Means, Mean, LoadFunc, TypeI.FromRiscv, TypeI.ToEmbive, TypeI.Encodable, R.Rd,
      R.Rs1, R.ImmI, R.LoadKindOf;
    LoadFuncs(w, k);
    var t := TypeI.FromRiscv(w).(func := LoadFunc(TypeI.FromRiscv(w).func).value);
    FuncFits(w, t);
    LoadStoreRoundTrip(t);
    FieldsI(w);
    LoadKept(t, k);
    Conclude(t.ToEmbive() | LOAD_STORE, LoadStore(t), R.Load(k, R.Rd(w), R.Rs1(w), R.ImmI(w)));
  }

  lemma StoreFuncs(w: bv32, k: R.StoreKind)
    requires R.StoreKindOf(w) == Some(k)
    ensures StoreFunc(TypeS.FromRiscv(w).func) == Some(match k case SB => 5 case SH => 6 case SW => 7)
  {
  }

  lemma StoreKept(i: TypeI, k: R.StoreKind)
    requires i.func == match k case SB => 5 case SH => 6 case SW => 7
    ensures Mean(LoadStore(i)) == R.Store(k, Reg(i.rs1), Reg(i.rdRs2), Signed(i.imm))
  {
  }

  lemma StoreFits(w: bv32, func: bv8)
    requires func < 8
    ensures TypeI(TypeS.FromRiscv(w).rs2, TypeS.FromRiscv(w).rs1, TypeS.FromRiscv(w).imm, func).Encodable()
  {
  }

  lemma StoreMeans(w: bv32, k: R.StoreKind)
    requires R.StoreKindOf(w) == Some(k)
    ensures Means(Store(w), WordSize, R.Store(k, R.Rs1(w), R.Rs2(w), R.ImmS(w)))
  {
    hide Reg, Signed, Decode, Means, Mean, StoreFunc, TypeS.FromRiscv, TypeI.ToEmbive, TypeI.Encodable, R.Rs1,
      R.Rs2, R.ImmS, R.StoreKindOf;
    StoreFuncs(w, k);
    var s := TypeS.FromRiscv(w);
    var t := TypeI(s.rs2, s.rs1, s.imm, StoreFunc(s.func).value);
    StoreFits(w, t.func);
    LoadStoreRoundTrip(t);
    FieldsS(w);
    StoreKept(t, k);
    Conclude(t.ToEmbive() | LOAD_STORE, LoadStore(t), R.Store(k, R.Rs1(w), R.Rs2(w), R.ImmS(w)));
  }

  lemma BranchFuncs(w: bv32, c: R.Condition)
    requires R.ConditionOf(w) == Some(c)
    ensures BranchFunc(TypeB.FromRiscv(w).func)
         == Some(match c case EQ => 0 case NE => 1 case LT => 2 case GE => 3 case LTU => 4 case GEU => 5)
  {
  }

  lemma BranchKept(b: TypeB, c: R.Condition)
    requires b.func == match c case EQ => 0 case NE => 1 case LT => 2 case GE => 3 case LTU => 4 case GEU => 5
    ensures Mean(Branch(b)) == R.Branch(c, Reg(b.rs1), Reg(b.rs2), Signed(b.imm))
  {
  }

  lemma BranchFits(w: bv32, func: bv8)
    requires func < 8
    ensures TypeB.FromRiscv(w).(func := func).Encodable()
  {
    TypeB.Fits(w);
  }

  lemma BranchMeans(w: bv32, c: R.Condition)
    requires R.ConditionOf(w) == Some(c)
    ensures Means(Branches(w), WordSize, R.Branch(c, R.Rs1(w), R.Rs2(w), R.ImmB(w)))
  {
    hide Reg, Signed, Decode, Means, Mean, BranchFunc, TypeB.FromRiscv, TypeB.ToEmbive, TypeB.Encodable, R.Rs1,
      R.Rs2, R.ImmB, R.ConditionOf;
    BranchFuncs(w, c);
    var t := TypeB.FromRiscv(w).(func := BranchFunc(TypeB.FromRiscv(w).func).value);
    BranchFits(w, t.func);
    BranchRoundTrip(t);
    FieldsB(w);
    BranchKept(t, c);
    Conclude(t.ToEmbive() | BRANCH, Branch(t), R.Branch(c, R.Rs1(w), R.Rs2(w), R.ImmB(w)));
  }

  lemma OpImmFuncs(w: bv32)
    ensures OpImmFunc(TypeI.FromRiscv(w).func) == Some(TypeI.FromRiscv(w).func)
  {
  }

  lemma OpImmBits(w: bv32)
    ensures TypeI.FromRiscv(w).func as bv32 == R.Funct3(w)
    ensures TypeI.FromRiscv(w).imm & 0x1F == (w >> 20) & 0x1F
  {
  }

  lemma ShiftBits(w: bv32)
    ensures R.Funct7(w) == 0 ==> TypeI.FromRiscv(w).imm & 0x400 == 0
    ensures R.Funct7(w) == 0x20 ==> TypeI.FromRiscv(w).imm & 0x400 != 0
  {
  }

  lemma OpImmKept(w: bv32, i: TypeI, r: R.Instr)
    requires R.DecodeOpImm(w) == Some(r)
    requires i.func as bv32 == R.Funct3(w) && i.imm & 0x1F == (w >> 20) & 0x1F
    requires R.Funct7(w) == 0 ==> i.imm & 0x400 == 0
    requires R.Funct7(w) == 0x20 ==> i.imm & 0x400 != 0
    requires Reg(i.rdRs2) == R.Rd(w) && Reg(i.rs1) == R.Rs1(w) && Signed(i.imm) == R.ImmI(w)
    ensures Mean(OpImm(i)) == r
  {
    hide Reg, Nat, Signed, R.ImmI, R.Rd, R.Rs1, R.Funct7;
  }

  lemma OpImmMeans(w: bv32, r: R.Instr)
    requires R.DecodeOpImm(w) == Some(r)
    ensures Means(OpImmediate(w), WordSize, r)
  {
    hide Reg, Signed, Decode, Means, Mean, OpImmFunc, TypeI.FromRiscv, TypeI.ToEmbive, TypeI.Encodable, R.Rd,
      R.Rs1, R.ImmI, R.DecodeOpImm, R.Funct3, R.Funct7;
    var t := TypeI.FromRiscv(w);
    OpImmFuncs(w);
    OpImmBits(w);
    ShiftBits(w);
    TypeI.Fits(w);
    OpImmRoundTrip(t);
    FieldsI(w);
    OpImmKept(w, t, r);
    Conclude(t.ToEmbive() | OP_IMM, OpImm(t), r);
  }

  lemma RFits(w: bv32, func: bv16)
    requires func < 0x400
    ensures TypeR.FromRiscv(w).(func := func).Encodable()
  {
  }

  lemma OpFuncs(w: bv32, op: R.AluOp)
    requires R.AluOpOf(w) == Some(op)
    ensures OpFunc(TypeR.FromRiscv(w).func).Some? && OpFunc(TypeR.FromRiscv(w).func).value < 18
    ensures AluOf(OpFunc(TypeR.FromRiscv(w).func).value) == Some(op)
  {
  }

  lemma OpMeans(w: bv32, op: R.AluOp)
    requires R.AluOpOf(w) == Some(op)
    ensures Means(Op(w), WordSize, R.Op(op, R.Rd(w), R.Rs1(w), R.Rs2(w)))
  {
    hide Reg, Decode, Means, OpFunc, AluOf, TypeR.FromRiscv, TypeR.ToEmbive, TypeR.Encodable, R.Rd, R.Rs1,
      R.Rs2, R.AluOpOf;
    OpFuncs(w, op);
    var t := TypeR.FromRiscv(w).(func := OpFunc(TypeR.FromRiscv(w).func).value);
    RFits(w, t.func);
    OpAmoRoundTrip(t);
    FieldsR(w);
    Conclude(t.ToEmbive() | OP_AMO, OpAmo(t), R.Op(op, R.Rd(w), R.Rs1(w), R.Rs2(w)));
  }

  /** The operation that an atomic function constant selects. */
  function AtomicMeaning(func: bv16, rd: nat, rs1: nat, rs2: nat): R.Instr {
    match func
    case 18 => R.LoadReserved(rd, rs1)
    case 19 => R.StoreConditional(rd, rs1, rs2)
    case _ => if AmoOf(func).Some? then R.Amo(AmoOf(func).value, rd, rs1, rs2) else R.Illegal
  }

  lemma AmoFuncs(w: bv32, r: R.Instr)
    requires R.DecodeAmo(w) == Some(r)
    ensures TypeR.FromRiscv(w).func & 0x7 == 2
    ensures AmoFunc(TypeR.FromRiscv(w).func >> 5).Some? && 18 <= AmoFunc(TypeR.FromRiscv(w).func >> 5).value <= 28
    ensures AtomicMeaning(AmoFunc(TypeR.FromRiscv(w).func >> 5).value, R.Rd(w), R.Rs1(w), R.Rs2(w)) == r
  {
    hide R.Rd, R.Rs1, R.Rs2;
  }

  lemma AtomicKept(t: TypeR)
    requires 18 <= t.func <= 28
    ensures Mean(OpAmo(t)) == AtomicMeaning(t.func, Reg(t.rd), Reg(t.rs1), Reg(t.rs2))
  {
    hide Reg;
  }

  lemma AmoMeans(w: bv32, r: R.Instr)
    requires R.DecodeAmo(w) == Some(r)
    ensures Means(Amo(w), WordSize, r)
  {
    hide Reg, Decode, Means, Mean, AmoFunc, AmoOf, AtomicMeaning, TypeR.FromRiscv, TypeR.ToEmbive,
      TypeR.Encodable, R.Rd, R.Rs1, R.Rs2, R.DecodeAmo;
    AmoFuncs(w, r);
    var t := TypeR.FromRiscv(w).(func := AmoFunc(TypeR.FromRiscv(w).func >> 5).value);
    RFits(w, t.func);
    OpAmoRoundTrip(t);
    FieldsR(w);
    AtomicKept(t);
    Conclude(t.ToEmbive() | OP_AMO, OpAmo(t), r);
  }

  /** FENCE and FENCE.I become the same no-operation. */
  lemma FenceMeans(w: bv32)
    ensures Means(MiscMem(w), WordSize, R.Fence)
  {
    hide Reg, Signed, Decode, Means, TypeI.ToEmbive;
    var t := TypeI.FromRiscv(w).(func := 0, imm := 2);
    SystemMiscMemRoundTrip(t);
    Conclude(t.ToEmbive() | SYSTEM_MISC_MEM, SystemMiscMem(t), R.Fence);
  }

  lemma PrivilegedBits(w: bv32, r: R.Instr)
    requires R.Funct3(w) == 0 && R.DecodeSystem(w) == Some(r)
    ensures var i := TypeI.FromRiscv(w);
            i.func == 0 && Mean(SystemMiscMem(i.(imm := SystemImm(i.imm)))) == r && SystemImm(i.imm) <= 4
  {
    hide Reg, Signed, Nat;
  }

  lemma PrivilegedMeans(w: bv32, r: R.Instr)
    requires R.Funct3(w) == 0 && R.DecodeSystem(w) == Some(r)
    ensures Means(System(w), WordSize, r)
  {
    hide Reg, Signed, Decode, Means, Mean, SystemImm, TypeI.ToEmbive, R.DecodeSystem;
    PrivilegedBits(w, r);
    var i := TypeI.FromRiscv(w);
    var t := i.(imm := SystemImm(i.imm));
    SystemMiscMemRoundTrip(t);
    Conclude(t.ToEmbive() | SYSTEM_MISC_MEM, SystemMiscMem(t), r);
  }

  lemma CsrFunct(w: bv32)
    ensures TypeI.FromRiscv(w).func as bv32 == R.Funct3(w)
    ensures TypeI.FromRiscv(w).rs1 as bv32 == (w >> 15) & 0x1F
  {
  }

  lemma SignedFieldSet(w: bv32)
    requires w & 0x8000_0000 != 0
    ensures Sar(w & 0xFFF0_0000, 20) & 0xFFF == w >> 20
  {
  }

  lemma SignedFieldClear(w: bv32)
    requires w & 0x8000_0000 == 0
    ensures Sar(w & 0xFFF0_0000, 20) & 0xFFF == w >> 20
  {
  }

  lemma CsrAddressBits(w: bv32)
    ensures Low12(TypeI.FromRiscv(w).imm) == w >> 20
  {
    hide Sar, Field5, Field3;
    if w & 0x8000_0000 != 0 {
      SignedFieldSet(w);
    } else {
      SignedFieldClear(w);
    }
  }

  lemma CsrKept(w: bv32, i: TypeI, r: R.Instr)
    requires R.Funct3(w) != 0 && R.DecodeSystem(w) == Some(r)
    requires i.func as bv32 == R.Funct3(w) && Low12(i.imm) == w >> 20 && i.rs1 as bv32 == (w >> 15) & 0x1F
    requires Reg(i.rdRs2) == R.Rd(w) && Reg(i.rs1) == R.Rs1(w)
    ensures i.func != 0 && CsrFunc(i.func).Some? && CsrFunc(i.func).value < 8
    ensures SystemMeaning(i.(func := CsrFunc(i.func).value)) == r
  {
    hide Reg, Signed, Nat, R.Rd, R.Rs1, R.Funct3, Low12;
  }

  lemma SystemMeans(i: TypeI)
    ensures Mean(SystemMiscMem(i)) == SystemMeaning(i)
  {
    hide SystemMeaning;
  }

  lemma CsrMeans(w: bv32, r: R.Instr)
    requires R.Funct3(w) != 0 && R.DecodeSystem(w) == Some(r)
    ensures Means(System(w), WordSize, r)
  {
    hide Reg, Signed, Decode, Means, Mean, SystemMeaning, CsrFunc, TypeI.FromRiscv, TypeI.ToEmbive,
      TypeI.Encodable, R.Rd, R.Rs1, R.ImmI, R.DecodeSystem, R.Funct3;
    var i := TypeI.FromRiscv(w);
    CsrFunct(w);
    CsrAddressBits(w);
    FieldsI(w);
    CsrKept(w, i, r);
    var t := i.(func := CsrFunc(i.func).value);
    SystemMeans(t);
    FuncFits(w, t);
    SystemMiscMemRoundTrip(t);
    Conclude(t.ToEmbive() | SYSTEM_MISC_MEM, SystemMiscMem(t), r);
  }

  // The decode trees.

  lemma C0Means(w: bv32, r: R.Instr)
    requires R.DecodeQuadrant0(w) == Some(r)
    ensures Means(C0(w), HalfSize, r)
  {
    hide Means, TypeCIW.FromRiscv, TypeCIW.ToEmbive, TypeCL.FromRiscv, TypeCL.ToEmbive, R.ImmCiw, R.ImmCl,
      R.CLow, R.CHigh;
    CAddi4spnMeans(w);
    CLwMeans(w);
    CSwMeans(w);
  }

  lemma CompressedBit12(w: bv32)
    ensures Bit(w, 12) == 0 <==> CBit12(w) == 0
  {
  }

  lemma C1AluMeans(w: bv32, r: R.Instr)
    requires R.DecodeQuadrant1Alu(w) == Some(r)
    ensures Means(C1Alu(w), HalfSize, r)
  {
    hide Means, Bit, CBit12, TypeCB1.FromRiscv, TypeCB1.ToEmbive, TypeCB2.FromRiscv, TypeCB2.ToEmbive,
      TypeCS.FromRiscv, TypeCS.ToEmbive, R.ImmCi, R.Bits6To2, R.CLow, R.CHigh;
    CompressedBit12(w);
    CSrliMeans(w);
    CSraiMeans(w);
    CAndiMeans(w);
    CSubMeans(w);
    CXorMeans(w);
    COrMeans(w);
    CAndMeans(w);
  }

  lemma LuiRd(w: bv32)
    ensures TypeCI3.FromRiscv(w).rdRs1 == 2 <==> (w >> 7) & 0x1F == 2
  {
  }

  lemma C1Means(w: bv32, r: R.Instr)
    requires R.DecodeQuadrant1(w) == Some(r)
    ensures Means(C1(w), HalfSize, r)
  {
    hide Means, C1Alu, TypeCI1.FromRiscv, TypeCI1.ToEmbive, TypeCI2.FromRiscv, TypeCI2.ToEmbive,
      TypeCI3.FromRiscv, TypeCI3.ToEmbive, TypeCJ.FromRiscv, TypeCJ.ToEmbive, TypeCB4.FromRiscv,
      TypeCB4.ToEmbive, R.ImmCi, R.ImmCiAddi16sp, R.ImmCj, R.ImmCb, R.Rd, R.CHigh, R.DecodeQuadrant1Alu;
    if R.CFunct3(w) == 4 {
      C1AluMeans(w, r);
    } else {
      CAddiMeans(w);
      CJalMeans(w);
      CLiMeans(w);
      LuiRd(w);
      CAddi16spMeans(w);
      CLuiMeans(w);
      CJMeans(w);
      CBeqzMeans(w);
      CBnezMeans(w);
    }
  }

  lemma C2Means(w: bv32, r: R.Instr)
    requires R.DecodeQuadrant2(w) == Some(r)
    ensures Means(C2(w), HalfSize, r)
  {
    hide Means, Bit, CBit12, TypeCI4.FromRiscv, TypeCI4.ToEmbive, TypeCI5.FromRiscv, TypeCI5.ToEmbive,
      TypeCR.FromRiscv, TypeCR.ToEmbive, TypeCSS.FromRiscv, TypeCSS.ToEmbive, R.ImmCiLwsp, R.ImmCss, R.Bits6To2,
      R.Rd, R.CRs2;
    CompressedBit12(w);
    CSlliMeans(w);
    CLwspMeans(w);
    CJrMvMeans(w);
    CEbreakJalrAddMeans(w);
    CSwspMeans(w);
  }

  lemma UncompressedMeans(w: bv32, r: R.Instr)
    requires R.DecodeWord(w) == Some(r)
    ensures Means(Uncompressed(w), WordSize, r)
  {
    hide Means, Load, MiscMem, OpImmediate, Store, Amo, Op, Branches, System, R.LoadKindOf, R.StoreKindOf,
      R.ConditionOf, R.AluOpOf, R.DecodeOpImm, R.DecodeAmo, R.DecodeSystem, R.Funct3, R.Rd, R.Rs1, R.Rs2,
      R.ImmI, R.ImmS, R.ImmB, R.ImmU, R.ImmJ, TypeU.FromRiscv, TypeU.ToEmbive, TypeI.FromRiscv, TypeI.ToEmbive,
      TypeJ.FromRiscv, TypeJ.ToEmbive;
    match w & 0x7F {
      case 0x03 => LoadMeans(w, r.load);
      case 0x0F => FenceMeans(w);
      case 0x13 => OpImmMeans(w, r);
      case 0x17 => AuipcMeans(w);
      case 0x23 => StoreMeans(w, r.store);
      case 0x2F => AmoMeans(w, r);
      case 0x33 => OpMeans(w, r.op);
      case 0x37 => LuiMeans(w);
      case 0x63 => BranchMeans(w, r.cond);
      case 0x67 => JalrMeans(w);
      case 0x6F => JalMeans(w);
      case 0x73 =>
        if R.Funct3(w) == 0 {
          PrivilegedMeans(w, r);
        } else {
          CsrMeans(w, r);
        }
      case _ =>
    }
  }

  /** The size that the low two bits of a RISC-V word give it. */
  function SizeOf(w: bv32): Size {
    if w & 0x3 == 3 then WordSize else HalfSize
  }

  /**
    Every defined instruction converts, to a word of the same length that decodes to an instruction with
    the same meaning.
   */
  lemma ConvertMeans(w: bv32, r: R.Instr)
    requires R.Decode(w) == Some(r)
    ensures Means(Convert(w), SizeOf(w), r)
    ensures SizeOf(w).Bytes() == R.Length(w)
  {
    hide Means, C0, C1, C2, Uncompressed, R.DecodeQuadrant0, R.DecodeQuadrant1, R.DecodeQuadrant2, R.DecodeWord;
    match w & 0x3 {
      case 0 => C0Means(w, r);
      case 1 => C1Means(w, r);
      case 2 => C2Means(w, r);
      case _ => LowTwoBits(w); UncompressedMeans(w, r);
    }
  }

  lemma LowTwoBits(w: bv32)
    ensures w & 0x3 == 0 || w & 0x3 == 1 || w & 0x3 == 2 || w & 0x3 == 3
  {
  }
}
