/**
  The Embive instruction set (src/instruction.rs, src/instruction/embive_macro.rs): the opcode table and
  the decoding of instruction words.
 */
module Embive {
  import opened Wrappers
  import opened Words
  import opened Formats

  const C_ADDI4SPN: bv32 := 0
  const C_LW: bv32 := 1
  const C_SW: bv32 := 2
  const C_ADDI: bv32 := 3
  const C_JAL: bv32 := 4
  const C_LI: bv32 := 5
  const C_ADDI16SP: bv32 := 6
  const C_LUI: bv32 := 7
  const C_SRLI: bv32 := 8
  const C_SRAI: bv32 := 9
  const C_ANDI: bv32 := 10
  const C_SUB: bv32 := 11
  const C_XOR: bv32 := 12
  const C_OR: bv32 := 13
  const C_AND: bv32 := 14
  const C_J: bv32 := 15
  const C_BEQZ: bv32 := 16
  const C_BNEZ: bv32 := 17
  const C_SLLI: bv32 := 18
  const C_LWSP: bv32 := 19
  const C_JR_MV: bv32 := 20
  const C_EBREAK_JALR_ADD: bv32 := 21
  const C_SWSP: bv32 := 22
  const AUIPC: bv32 := 23
  const BRANCH: bv32 := 24
  const JAL: bv32 := 25
  const JALR: bv32 := 26
  const LOAD_STORE: bv32 := 27
  const LUI: bv32 := 28
  const OP_IMM: bv32 := 29
  const OP_AMO: bv32 := 30
  const SYSTEM_MISC_MEM: bv32 := 31

  /** Encoded fields with the opcode in the low five bits. */
  function Tagged(fields: bv32, opcode: bv32): bv32 { fields | opcode }

  datatype Instruction =
    | CAddi4spn(ciw: TypeCIW)
    | CLw(cl: TypeCL)
    | CSw(cl: TypeCL)
    | CAddi(ci1: TypeCI1)
    | CJal(cj: TypeCJ)
    | CLi(ci1: TypeCI1)
    | CAddi16sp(ci2: TypeCI2)
    | CLui(ci3: TypeCI3)
    | CSrli(cb1: TypeCB1)
    | CSrai(cb1: TypeCB1)
    | CAndi(cb2: TypeCB2)
    | CSub(cs: TypeCS)
    | CXor(cs: TypeCS)
    | COr(cs: TypeCS)
    | CAnd(cs: TypeCS)
    | CJ(cj: TypeCJ)
    | CBeqz(cb4: TypeCB4)
    | CBnez(cb4: TypeCB4)
    | CSlli(ci4: TypeCI4)
    | CLwsp(ci5: TypeCI5)
    | CJrMv(cr: TypeCR)
    | CEbreakJalrAdd(cr: TypeCR)
    | CSwsp(css: TypeCSS)
    | Auipc(u: TypeU)
    | Branch(b: TypeB)
    | Jal(j: TypeJ)
    | Jalr(i: TypeI)
    | LoadStore(i: TypeI)
    | Lui(u: TypeU)
    | OpImm(i: TypeI)
    | OpAmo(r: TypeR)
    | SystemMiscMem(i: TypeI)
  {
    /** The size of the instruction's format: opcodes 0 to 22 take two bytes, the rest four. */
    function Size(): Size {
      match this
      case Auipc(_) => WordSize
      case Branch(_) => WordSize
      case Jal(_) => WordSize
      case Jalr(_) => WordSize
      case LoadStore(_) => WordSize
      case Lui(_) => WordSize
      case OpImm(_) => WordSize
      case OpAmo(_) => WordSize
      case SystemMiscMem(_) => WordSize
      case _ => HalfSize
    }

    /** Every field has a value that its format can hold; register fields are then below 32. */
    predicate Encodable() {
      match this
      case CAddi4spn(ciw) => ciw.Encodable()
      case CLw(cl) => cl.Encodable()
      case CSw(cl) => cl.Encodable()
      case CAddi(ci1) => ci1.Encodable()
      case CJal(cj) => cj.Encodable()
      case CLi(ci1) => ci1.Encodable()
      case CAddi16sp(ci2) => ci2.Encodable()
      case CLui(ci3) => ci3.Encodable()
      case CSrli(cb1) => cb1.Encodable()
      case CSrai(cb1) => cb1.Encodable()
      case CAndi(cb2) => cb2.Encodable()
      case CSub(cs) => cs.Encodable()
      case CXor(cs) => cs.Encodable()
      case COr(cs) => cs.Encodable()
      case CAnd(cs) => cs.Encodable()
      case CJ(cj) => cj.Encodable()
      case CBeqz(cb4) => cb4.Encodable()
      case CBnez(cb4) => cb4.Encodable()
      case CSlli(ci4) => ci4.Encodable()
      case CLwsp(ci5) => ci5.Encodable()
      case CJrMv(cr) => cr.Encodable()
      case CEbreakJalrAdd(cr) => cr.Encodable()
      case CSwsp(css) => css.Encodable()
      case Auipc(u) => u.Encodable()
      case Branch(b) => b.Encodable()
      case Jal(j) => j.Encodable()
      case Jalr(i) => i.Encodable()
      case LoadStore(i) => i.Encodable()
      case Lui(u) => u.Encodable()
      case OpImm(i) => i.Encodable()
      case OpAmo(r) => r.Encodable()
      case SystemMiscMem(i) => i.Encodable()
    }

    /** The instruction word. */
    function Encode(): bv32 {
      match this
      case CAddi4spn(ciw) => Tagged(ciw.ToEmbive(), C_ADDI4SPN)
      case CLw(cl) => Tagged(cl.ToEmbive(), C_LW)
      case CSw(cl) => Tagged(cl.ToEmbive(), C_SW)
      case CAddi(ci1) => Tagged(ci1.ToEmbive(), C_ADDI)
      case CJal(cj) => Tagged(cj.ToEmbive(), C_JAL)
      case CLi(ci1) => Tagged(ci1.ToEmbive(), C_LI)
      case CAddi16sp(ci2) => Tagged(ci2.ToEmbive(), C_ADDI16SP)
      case CLui(ci3) => Tagged(ci3.ToEmbive(), C_LUI)
      case CSrli(cb1) => Tagged(cb1.ToEmbive(), C_SRLI)
      case CSrai(cb1) => Tagged(cb1.ToEmbive(), C_SRAI)
      case CAndi(cb2) => Tagged(cb2.ToEmbive(), C_ANDI)
      case CSub(cs) => Tagged(cs.ToEmbive(), C_SUB)
      case CXor(cs) => Tagged(cs.ToEmbive(), C_XOR)
      case COr(cs) => Tagged(cs.ToEmbive(), C_OR)
      case CAnd(cs) => Tagged(cs.ToEmbive(), C_AND)
      case CJ(cj) => Tagged(cj.ToEmbive(), C_J)
      case CBeqz(cb4) => Tagged(cb4.ToEmbive(), C_BEQZ)
      case CBnez(cb4) => Tagged(cb4.ToEmbive(), C_BNEZ)
      case CSlli(ci4) => Tagged(ci4.ToEmbive(), C_SLLI)
      case CLwsp(ci5) => Tagged(ci5.ToEmbive(), C_LWSP)
      case CJrMv(cr) => Tagged(cr.ToEmbive(), C_JR_MV)
      case CEbreakJalrAdd(cr) => Tagged(cr.ToEmbive(), C_EBREAK_JALR_ADD)
      case CSwsp(css) => Tagged(css.ToEmbive(), C_SWSP)
      case Auipc(u) => Tagged(u.ToEmbive(), AUIPC)
      case Branch(b) => Tagged(b.ToEmbive(), BRANCH)
      case Jal(j) => Tagged(j.ToEmbive(), JAL)
      case Jalr(i) => Tagged(i.ToEmbive(), JALR)
      case LoadStore(i) => Tagged(i.ToEmbive(), LOAD_STORE)
      case Lui(u) => Tagged(u.ToEmbive(), LUI)
      case OpImm(i) => Tagged(i.ToEmbive(), OP_IMM)
      case OpAmo(r) => Tagged(r.ToEmbive(), OP_AMO)
      case SystemMiscMem(i) => Tagged(i.ToEmbive(), SYSTEM_MISC_MEM)
    }
  }

  /** The low five bits of an instruction word. */
  function Opcode(inst: bv32): bv32 { inst & 0x1F }

  /** `decode_instruction!`: a match on the opcode, here in three parts. */
  function Decode(inst: bv32): Option<Instruction> {
    if Opcode(inst) <= C_ANDI then DecodeLow(inst)
    else if Opcode(inst) <= C_SWSP then DecodeHigh(inst)
    else DecodeWide(inst)
  }

  function DecodeLow(inst: bv32): Option<Instruction> {
    match Opcode(inst)
    case 0 => Some(CAddi4spn(TypeCIW.FromEmbive(inst)))
    case 1 => Some(CLw(TypeCL.FromEmbive(inst)))
    case 2 => Some(CSw(TypeCL.FromEmbive(inst)))
    case 3 => Some(CAddi(TypeCI1.FromEmbive(inst)))
    case 4 => Some(CJal(TypeCJ.FromEmbive(inst)))
    case 5 => Some(CLi(TypeCI1.FromEmbive(inst)))
    case 6 => Some(CAddi16sp(TypeCI2.FromEmbive(inst)))
    case 7 => Some(CLui(TypeCI3.FromEmbive(inst)))
    case 8 => Some(CSrli(TypeCB1.FromEmbive(inst)))
    case 9 => Some(CSrai(TypeCB1.FromEmbive(inst)))
    case 10 => Some(CAndi(TypeCB2.FromEmbive(inst)))
    case _ => None
  }

  function DecodeHigh(inst: bv32): Option<Instruction> {
    match Opcode(inst)
    case 11 => Some(CSub(TypeCS.FromEmbive(inst)))
    case 12 => Some(CXor(TypeCS.FromEmbive(inst)))
    case 13 => Some(COr(TypeCS.FromEmbive(inst)))
    case 14 => Some(CAnd(TypeCS.FromEmbive(inst)))
    case 15 => Some(CJ(TypeCJ.FromEmbive(inst)))
    case 16 => Some(CBeqz(TypeCB4.FromEmbive(inst)))
    case 17 => Some(CBnez(TypeCB4.FromEmbive(inst)))
    case 18 => Some(CSlli(TypeCI4.FromEmbive(inst)))
    case 19 => Some(CLwsp(TypeCI5.FromEmbive(inst)))
    case 20 => Some(CJrMv(TypeCR.FromEmbive(inst)))
    case 21 => Some(CEbreakJalrAdd(TypeCR.FromEmbive(inst)))
    case 22 => Some(CSwsp(TypeCSS.FromEmbive(inst)))
    case _ => None
  }

  function DecodeWide(inst: bv32): Option<Instruction> {
    match Opcode(inst)
    case 23 => Some(Auipc(TypeU.FromEmbive(inst)))
    case 24 => Some(Branch(TypeB.FromEmbive(inst)))
    case 25 => Some(Jal(TypeJ.FromEmbive(inst)))
    case 26 => Some(Jalr(TypeI.FromEmbive(inst)))
    case 27 => Some(LoadStore(TypeI.FromEmbive(inst)))
    case 28 => Some(Lui(TypeU.FromEmbive(inst)))
    case 29 => Some(OpImm(TypeI.FromEmbive(inst)))
    case 30 => Some(OpAmo(TypeR.FromEmbive(inst)))
    case 31 => Some(SystemMiscMem(TypeI.FromEmbive(inst)))
    case _ => None
  }

  lemma LowBits(w: bv32)
    ensures Opcode(w) < 32
  {
  }

  /** Every word decodes: the table has an entry for each value of the five opcode bits. */
  lemma DecodeTotal(inst: bv32)
    ensures Decode(inst).Some?
  {
    hide TypeCIW.FromEmbive, TypeCL.FromEmbive, TypeCI1.FromEmbive, TypeCJ.FromEmbive, TypeCI2.FromEmbive,
      TypeCI3.FromEmbive, TypeCB1.FromEmbive, TypeCB2.FromEmbive, TypeCS.FromEmbive, TypeCB4.FromEmbive,
      TypeCI4.FromEmbive, TypeCI5.FromEmbive, TypeCR.FromEmbive, TypeCSS.FromEmbive, TypeU.FromEmbive,
      TypeB.FromEmbive, TypeJ.FromEmbive, TypeI.FromEmbive, TypeR.FromEmbive;
    LowBits(inst);
  }

  // One lemma for each table entry: the word that is built from an instruction's fields and its opcode
  // decodes to that instruction exactly when the fields are encodable, so an opcode never overlaps a
  // field and no two opcodes are confused.

  lemma CAddi4spnRoundTrip(ciw: TypeCIW)
    ensures Decode(ciw.ToEmbive() | C_ADDI4SPN) == Some(CAddi4spn(ciw)) <==> ciw.Encodable()
    ensures Tagged(ciw.ToEmbive(), C_ADDI4SPN) == ciw.ToEmbive() | C_ADDI4SPN
  {
    hide TypeCIW.FromEmbive, TypeCIW.ToEmbive, TypeCIW.Encodable;
    ciw.RoundTrip(C_ADDI4SPN);
  }

  lemma CLwRoundTrip(cl: TypeCL)
    ensures Decode(cl.ToEmbive() | C_LW) == Some(CLw(cl)) <==> cl.Encodable()
    ensures Tagged(cl.ToEmbive(), C_LW) == cl.ToEmbive() | C_LW
  {
    hide TypeCL.FromEmbive, TypeCL.ToEmbive, TypeCL.Encodable;
    cl.RoundTrip(C_LW);
  }

  lemma CSwRoundTrip(cl: TypeCL)
    ensures Decode(cl.ToEmbive() | C_SW) == Some(CSw(cl)) <==> cl.Encodable()
    ensures Tagged(cl.ToEmbive(), C_SW) == cl.ToEmbive() | C_SW
  {
    hide TypeCL.FromEmbive, TypeCL.ToEmbive, TypeCL.Encodable;
    cl.RoundTrip(C_SW);
  }

  lemma CAddiRoundTrip(ci1: TypeCI1)
    ensures Decode(ci1.ToEmbive() | C_ADDI) == Some(CAddi(ci1)) <==> ci1.Encodable()
    ensures Tagged(ci1.ToEmbive(), C_ADDI) == ci1.ToEmbive() | C_ADDI
  {
    hide TypeCI1.FromEmbive, TypeCI1.ToEmbive, TypeCI1.Encodable;
    ci1.RoundTrip(C_ADDI);
  }

  lemma CJalRoundTrip(cj: TypeCJ)
    ensures Decode(cj.ToEmbive() | C_JAL) == Some(CJal(cj)) <==> cj.Encodable()
    ensures Tagged(cj.ToEmbive(), C_JAL) == cj.ToEmbive() | C_JAL
  {
    hide TypeCJ.FromEmbive, TypeCJ.ToEmbive, TypeCJ.Encodable;
    cj.RoundTrip(C_JAL);
  }

  lemma CLiRoundTrip(ci1: TypeCI1)
    ensures Decode(ci1.ToEmbive() | C_LI) == Some(CLi(ci1)) <==> ci1.Encodable()
    ensures Tagged(ci1.ToEmbive(), C_LI) == ci1.ToEmbive() | C_LI
  {
    hide TypeCI1.FromEmbive, TypeCI1.ToEmbive, TypeCI1.Encodable;
    ci1.RoundTrip(C_LI);
  }

  lemma CAddi16spRoundTrip(ci2: TypeCI2)
    ensures Decode(ci2.ToEmbive() | C_ADDI16SP) == Some(CAddi16sp(ci2)) <==> ci2.Encodable()
    ensures Tagged(ci2.ToEmbive(), C_ADDI16SP) == ci2.ToEmbive() | C_ADDI16SP
  {
    hide TypeCI2.FromEmbive, TypeCI2.ToEmbive, TypeCI2.Encodable;
    ci2.RoundTrip(C_ADDI16SP);
  }

  lemma CLuiRoundTrip(ci3: TypeCI3)
    ensures Decode(ci3.ToEmbive() | C_LUI) == Some(CLui(ci3)) <==> ci3.Encodable()
    ensures Tagged(ci3.ToEmbive(), C_LUI) == ci3.ToEmbive() | C_LUI
  {
    hide TypeCI3.FromEmbive, TypeCI3.ToEmbive, TypeCI3.Encodable;
    ci3.RoundTrip(C_LUI);
  }

  lemma CSrliRoundTrip(cb1: TypeCB1)
    ensures Decode(cb1.ToEmbive() | C_SRLI) == Some(CSrli(cb1)) <==> cb1.Encodable()
    ensures Tagged(cb1.ToEmbive(), C_SRLI) == cb1.ToEmbive() | C_SRLI
  {
    hide TypeCB1.FromEmbive, TypeCB1.ToEmbive, TypeCB1.Encodable;
    cb1.RoundTrip(C_SRLI);
  }

  lemma CSraiRoundTrip(cb1: TypeCB1)
    ensures Decode(cb1.ToEmbive() | C_SRAI) == Some(CSrai(cb1)) <==> cb1.Encodable()
    ensures Tagged(cb1.ToEmbive(), C_SRAI) == cb1.ToEmbive() | C_SRAI
  {
    hide TypeCB1.FromEmbive, TypeCB1.ToEmbive, TypeCB1.Encodable;
    cb1.RoundTrip(C_SRAI);
  }

  lemma CAndiRoundTrip(cb2: TypeCB2)
    ensures Decode(cb2.ToEmbive() | C_ANDI) == Some(CAndi(cb2)) <==> cb2.Encodable()
    ensures Tagged(cb2.ToEmbive(), C_ANDI) == cb2.ToEmbive() | C_ANDI
  {
    hide TypeCB2.FromEmbive, TypeCB2.ToEmbive, TypeCB2.Encodable;
    cb2.RoundTrip(C_ANDI);
  }

  lemma CSubRoundTrip(cs: TypeCS)
    ensures Decode(cs.ToEmbive() | C_SUB) == Some(CSub(cs)) <==> cs.Encodable()
    ensures Tagged(cs.ToEmbive(), C_SUB) == cs.ToEmbive() | C_SUB
  {
    hide TypeCS.FromEmbive, TypeCS.ToEmbive, TypeCS.Encodable;
    cs.RoundTrip(C_SUB);
  }

  lemma CXorRoundTrip(cs: TypeCS)
    ensures Decode(cs.ToEmbive() | C_XOR) == Some(CXor(cs)) <==> cs.Encodable()
    ensures Tagged(cs.ToEmbive(), C_XOR) == cs.ToEmbive() | C_XOR
  {
    hide TypeCS.FromEmbive, TypeCS.ToEmbive, TypeCS.Encodable;
    cs.RoundTrip(C_XOR);
  }

  lemma COrRoundTrip(cs: TypeCS)
    ensures Decode(cs.ToEmbive() | C_OR) == Some(COr(cs)) <==> cs.Encodable()
    ensures Tagged(cs.ToEmbive(), C_OR) == cs.ToEmbive() | C_OR
  {
    hide TypeCS.FromEmbive, TypeCS.ToEmbive, TypeCS.Encodable;
    cs.RoundTrip(C_OR);
  }

  lemma CAndRoundTrip(cs: TypeCS)
    ensures Decode(cs.ToEmbive() | C_AND) == Some(CAnd(cs)) <==> cs.Encodable()
    ensures Tagged(cs.ToEmbive(), C_AND) == cs.ToEmbive() | C_AND
  {
    hide TypeCS.FromEmbive, TypeCS.ToEmbive, TypeCS.Encodable;
    cs.RoundTrip(C_AND);
  }

  lemma CJRoundTrip(cj: TypeCJ)
    ensures Decode(cj.ToEmbive() | C_J) == Some(CJ(cj)) <==> cj.Encodable()
    ensures Tagged(cj.ToEmbive(), C_J) == cj.ToEmbive() | C_J
  {
    hide TypeCJ.FromEmbive, TypeCJ.ToEmbive, TypeCJ.Encodable;
    cj.RoundTrip(C_J);
  }

  lemma CBeqzRoundTrip(cb4: TypeCB4)
    ensures Decode(cb4.ToEmbive() | C_BEQZ) == Some(CBeqz(cb4)) <==> cb4.Encodable()
    ensures Tagged(cb4.ToEmbive(), C_BEQZ) == cb4.ToEmbive() | C_BEQZ
  {
    hide TypeCB4.FromEmbive, TypeCB4.ToEmbive, TypeCB4.Encodable;
    cb4.RoundTrip(C_BEQZ);
  }

  lemma CBnezRoundTrip(cb4: TypeCB4)
    ensures Decode(cb4.ToEmbive() | C_BNEZ) == Some(CBnez(cb4)) <==> cb4.Encodable()
    ensures Tagged(cb4.ToEmbive(), C_BNEZ) == cb4.ToEmbive() | C_BNEZ
  {
    hide TypeCB4.FromEmbive, TypeCB4.ToEmbive, TypeCB4.Encodable;
    cb4.RoundTrip(C_BNEZ);
  }

  lemma CSlliRoundTrip(ci4: TypeCI4)
    ensures Decode(ci4.ToEmbive() | C_SLLI) == Some(CSlli(ci4)) <==> ci4.Encodable()
    ensures Tagged(ci4.ToEmbive(), C_SLLI) == ci4.ToEmbive() | C_SLLI
  {
    hide TypeCI4.FromEmbive, TypeCI4.ToEmbive, TypeCI4.Encodable;
    ci4.RoundTrip(C_SLLI);
  }

  lemma CLwspRoundTrip(ci5: TypeCI5)
    ensures Decode(ci5.ToEmbive() | C_LWSP) == Some(CLwsp(ci5)) <==> ci5.Encodable()
    ensures Tagged(ci5.ToEmbive(), C_LWSP) == ci5.ToEmbive() | C_LWSP
  {
    hide TypeCI5.FromEmbive, TypeCI5.ToEmbive, TypeCI5.Encodable;
    ci5.RoundTrip(C_LWSP);
  }

  lemma CJrMvRoundTrip(cr: TypeCR)
    ensures Decode(cr.ToEmbive() | C_JR_MV) == Some(CJrMv(cr)) <==> cr.Encodable()
    ensures Tagged(cr.ToEmbive(), C_JR_MV) == cr.ToEmbive() | C_JR_MV
  {
    hide TypeCR.FromEmbive, TypeCR.ToEmbive, TypeCR.Encodable;
    cr.RoundTrip(C_JR_MV);
  }

  lemma CEbreakJalrAddRoundTrip(cr: TypeCR)
    ensures Decode(cr.ToEmbive() | C_EBREAK_JALR_ADD) == Some(CEbreakJalrAdd(cr)) <==> cr.Encodable()
    ensures Tagged(cr.ToEmbive(), C_EBREAK_JALR_ADD) == cr.ToEmbive() | C_EBREAK_JALR_ADD
  {
    hide TypeCR.FromEmbive, TypeCR.ToEmbive, TypeCR.Encodable;
    cr.RoundTrip(C_EBREAK_JALR_ADD);
  }

  lemma CSwspRoundTrip(css: TypeCSS)
    ensures Decode(css.ToEmbive() | C_SWSP) == Some(CSwsp(css)) <==> css.Encodable()
    ensures Tagged(css.ToEmbive(), C_SWSP) == css.ToEmbive() | C_SWSP
  {
    hide TypeCSS.FromEmbive, TypeCSS.ToEmbive, TypeCSS.Encodable;
    css.RoundTrip(C_SWSP);
  }

  lemma AuipcRoundTrip(u: TypeU)
    ensures Decode(u.ToEmbive() | AUIPC) == Some(Auipc(u)) <==> u.Encodable()
    ensures Tagged(u.ToEmbive(), AUIPC) == u.ToEmbive() | AUIPC
  {
    hide TypeU.FromEmbive, TypeU.ToEmbive, TypeU.Encodable;
    u.RoundTrip(AUIPC);
  }

  lemma BranchRoundTrip(b: TypeB)
    ensures Decode(b.ToEmbive() | BRANCH) == Some(Branch(b)) <==> b.Encodable()
    ensures Tagged(b.ToEmbive(), BRANCH) == b.ToEmbive() | BRANCH
  {
    hide TypeB.FromEmbive, TypeB.ToEmbive, TypeB.Encodable;
    b.RoundTrip(BRANCH);
  }

  lemma JalRoundTrip(j: TypeJ)
    ensures Decode(j.ToEmbive() | JAL) == Some(Jal(j)) <==> j.Encodable()
    ensures Tagged(j.ToEmbive(), JAL) == j.ToEmbive() | JAL
  {
    hide TypeJ.FromEmbive, TypeJ.ToEmbive, TypeJ.Encodable;
    j.RoundTrip(JAL);
  }

  lemma JalrRoundTrip(i: TypeI)
    ensures Decode(i.ToEmbive() | JALR) == Some(Jalr(i)) <==> i.Encodable()
    ensures Tagged(i.ToEmbive(), JALR) == i.ToEmbive() | JALR
  {
    hide TypeI.FromEmbive, TypeI.ToEmbive, TypeI.Encodable;
    i.RoundTrip(JALR);
  }

  lemma LoadStoreRoundTrip(i: TypeI)
    ensures Decode(i.ToEmbive() | LOAD_STORE) == Some(LoadStore(i)) <==> i.Encodable()
    ensures Tagged(i.ToEmbive(), LOAD_STORE) == i.ToEmbive() | LOAD_STORE
  {
    hide TypeI.FromEmbive, TypeI.ToEmbive, TypeI.Encodable;
    i.RoundTrip(LOAD_STORE);
  }

  lemma LuiRoundTrip(u: TypeU)
    ensures Decode(u.ToEmbive() | LUI) == Some(Lui(u)) <==> u.Encodable()
    ensures Tagged(u.ToEmbive(), LUI) == u.ToEmbive() | LUI
  {
    hide TypeU.FromEmbive, TypeU.ToEmbive, TypeU.Encodable;
    u.RoundTrip(LUI);
  }

  lemma OpImmRoundTrip(i: TypeI)
    ensures Decode(i.ToEmbive() | OP_IMM) == Some(OpImm(i)) <==> i.Encodable()
    ensures Tagged(i.ToEmbive(), OP_IMM) == i.ToEmbive() | OP_IMM
  {
    hide TypeI.FromEmbive, TypeI.ToEmbive, TypeI.Encodable;
    i.RoundTrip(OP_IMM);
  }

  lemma OpAmoRoundTrip(r: TypeR)
    ensures Decode(r.ToEmbive() | OP_AMO) == Some(OpAmo(r)) <==> r.Encodable()
    ensures Tagged(r.ToEmbive(), OP_AMO) == r.ToEmbive() | OP_AMO
  {
    hide TypeR.FromEmbive, TypeR.ToEmbive, TypeR.Encodable;
    r.RoundTrip(OP_AMO);
  }

  lemma SystemMiscMemRoundTrip(i: TypeI)
    ensures Decode(i.ToEmbive() | SYSTEM_MISC_MEM) == Some(SystemMiscMem(i)) <==> i.Encodable()
    ensures Tagged(i.ToEmbive(), SYSTEM_MISC_MEM) == i.ToEmbive() | SYSTEM_MISC_MEM
  {
    hide TypeI.FromEmbive, TypeI.ToEmbive, TypeI.Encodable;
    i.RoundTrip(SYSTEM_MISC_MEM);
  }

  lemma RoundTripLow(e: Instruction)
    requires e.CAddi4spn? || e.CLw? || e.CSw? || e.CAddi? || e.CJal? || e.CLi? || e.CAddi16sp? || e.CLui? ||
          e.CSrli? || e.CSrai? || e.CAndi?
    ensures Decode(e.Encode()) == Some(e) <==> e.Encodable()
  {
    hide Decode, Tagged, TypeCIW.ToEmbive, TypeCIW.Encodable, TypeCL.ToEmbive, TypeCL.Encodable,
      TypeCI1.ToEmbive, TypeCI1.Encodable, TypeCJ.ToEmbive, TypeCJ.Encodable, TypeCI2.ToEmbive,
      TypeCI2.Encodable, TypeCI3.ToEmbive, TypeCI3.Encodable, TypeCB1.ToEmbive, TypeCB1.Encodable,
      TypeCB2.ToEmbive, TypeCB2.Encodable, TypeCS.ToEmbive, TypeCS.Encodable, TypeCB4.ToEmbive,
      TypeCB4.Encodable, TypeCI4.ToEmbive, TypeCI4.Encodable, TypeCI5.ToEmbive, TypeCI5.Encodable,
      TypeCR.ToEmbive, TypeCR.Encodable, TypeCSS.ToEmbive, TypeCSS.Encodable, TypeU.ToEmbive, TypeU.Encodable,
      TypeB.ToEmbive, TypeB.Encodable, TypeJ.ToEmbive, TypeJ.Encodable, TypeI.ToEmbive, TypeI.Encodable,
      TypeR.ToEmbive, TypeR.Encodable;
    match e {
      case CAddi4spn(ciw) => CAddi4spnRoundTrip(ciw);
      case CLw(cl) => CLwRoundTrip(cl);
      case CSw(cl) => CSwRoundTrip(cl);
      case CAddi(ci1) => CAddiRoundTrip(ci1);
      case CJal(cj) => CJalRoundTrip(cj);
      case CLi(ci1) => CLiRoundTrip(ci1);
      case CAddi16sp(ci2) => CAddi16spRoundTrip(ci2);
      case CLui(ci3) => CLuiRoundTrip(ci3);
      case CSrli(cb1) => CSrliRoundTrip(cb1);
      case CSrai(cb1) => CSraiRoundTrip(cb1);
      case CAndi(cb2) => CAndiRoundTrip(cb2);
    }
  }

  lemma RoundTripHigh(e: Instruction)
    requires e.CSub? || e.CXor? || e.COr? || e.CAnd? || e.CJ? || e.CBeqz? || e.CBnez? || e.CSlli? ||
          e.CLwsp? || e.CJrMv? || e.CEbreakJalrAdd? || e.CSwsp?
    ensures Decode(e.Encode()) == Some(e) <==> e.Encodable()
  {
    hide Decode, Tagged, TypeCIW.ToEmbive, TypeCIW.Encodable, TypeCL.ToEmbive, TypeCL.Encodable,
      TypeCI1.ToEmbive, TypeCI1.Encodable, TypeCJ.ToEmbive, TypeCJ.Encodable, TypeCI2.ToEmbive,
      TypeCI2.Encodable, TypeCI3.ToEmbive, TypeCI3.Encodable, TypeCB1.ToEmbive, TypeCB1.Encodable,
      TypeCB2.ToEmbive, TypeCB2.Encodable, TypeCS.ToEmbive, TypeCS.Encodable, TypeCB4.ToEmbive,
      TypeCB4.Encodable, TypeCI4.ToEmbive, TypeCI4.Encodable, TypeCI5.ToEmbive, TypeCI5.Encodable,
      TypeCR.ToEmbive, TypeCR.Encodable, TypeCSS.ToEmbive, TypeCSS.Encodable, TypeU.ToEmbive, TypeU.Encodable,
      TypeB.ToEmbive, TypeB.Encodable, TypeJ.ToEmbive, TypeJ.Encodable, TypeI.ToEmbive, TypeI.Encodable,
      TypeR.ToEmbive, TypeR.Encodable;
    match e {
      case CSub(cs) => CSubRoundTrip(cs);
      case CXor(cs) => CXorRoundTrip(cs);
      case COr(cs) => COrRoundTrip(cs);
      case CAnd(cs) => CAndRoundTrip(cs);
      case CJ(cj) => CJRoundTrip(cj);
      case CBeqz(cb4) => CBeqzRoundTrip(cb4);
      case CBnez(cb4) => CBnezRoundTrip(cb4);
      case CSlli(ci4) => CSlliRoundTrip(ci4);
      case CLwsp(ci5) => CLwspRoundTrip(ci5);
      case CJrMv(cr) => CJrMvRoundTrip(cr);
      case CEbreakJalrAdd(cr) => CEbreakJalrAddRoundTrip(cr);
      case CSwsp(css) => CSwspRoundTrip(css);
    }
  }

  lemma RoundTripJump(e: Instruction)
    requires e.Auipc? || e.Branch? || e.Jal? || e.Jalr? || e.Lui?
    ensures Decode(e.Encode()) == Some(e) <==> e.Encodable()
  {
    hide Decode, Tagged, TypeCIW.ToEmbive, TypeCIW.Encodable, TypeCL.ToEmbive, TypeCL.Encodable,
      TypeCI1.ToEmbive, TypeCI1.Encodable, TypeCJ.ToEmbive, TypeCJ.Encodable, TypeCI2.ToEmbive,
      TypeCI2.Encodable, TypeCI3.ToEmbive, TypeCI3.Encodable, TypeCB1.ToEmbive, TypeCB1.Encodable,
      TypeCB2.ToEmbive, TypeCB2.Encodable, TypeCS.ToEmbive, TypeCS.Encodable, TypeCB4.ToEmbive,
      TypeCB4.Encodable, TypeCI4.ToEmbive, TypeCI4.Encodable, TypeCI5.ToEmbive, TypeCI5.Encodable,
      TypeCR.ToEmbive, TypeCR.Encodable, TypeCSS.ToEmbive, TypeCSS.Encodable, TypeU.ToEmbive, TypeU.Encodable,
      TypeB.ToEmbive, TypeB.Encodable, TypeJ.ToEmbive, TypeJ.Encodable, TypeI.ToEmbive, TypeI.Encodable,
      TypeR.ToEmbive, TypeR.Encodable;
    match e {
      case Auipc(u) => AuipcRoundTrip(u);
      case Branch(b) => BranchRoundTrip(b);
      case Jal(j) => JalRoundTrip(j);
      case Jalr(i) => JalrRoundTrip(i);
      case Lui(u) => LuiRoundTrip(u);
    }
  }

  lemma RoundTripOp(e: Instruction)
    requires e.LoadStore? || e.OpImm? || e.OpAmo? || e.SystemMiscMem?
    ensures Decode(e.Encode()) == Some(e) <==> e.Encodable()
  {
    hide Decode, Tagged, TypeCIW.ToEmbive, TypeCIW.Encodable, TypeCL.ToEmbive, TypeCL.Encodable,
      TypeCI1.ToEmbive, TypeCI1.Encodable, TypeCJ.ToEmbive, TypeCJ.Encodable, TypeCI2.ToEmbive,
      TypeCI2.Encodable, TypeCI3.ToEmbive, TypeCI3.Encodable, TypeCB1.ToEmbive, TypeCB1.Encodable,
      TypeCB2.ToEmbive, TypeCB2.Encodable, TypeCS.ToEmbive, TypeCS.Encodable, TypeCB4.ToEmbive,
      TypeCB4.Encodable, TypeCI4.ToEmbive, TypeCI4.Encodable, TypeCI5.ToEmbive, TypeCI5.Encodable,
      TypeCR.ToEmbive, TypeCR.Encodable, TypeCSS.ToEmbive, TypeCSS.Encodable, TypeU.ToEmbive, TypeU.Encodable,
      TypeB.ToEmbive, TypeB.Encodable, TypeJ.ToEmbive, TypeJ.Encodable, TypeI.ToEmbive, TypeI.Encodable,
      TypeR.ToEmbive, TypeR.Encodable;
    match e {
      case LoadStore(i) => LoadStoreRoundTrip(i);
      case OpImm(i) => OpImmRoundTrip(i);
      case OpAmo(r) => OpAmoRoundTrip(r);
      case SystemMiscMem(i) => SystemMiscMemRoundTrip(i);
    }
  }

  /** Encoding and decoding invert each other exactly on the instructions whose fields fit their formats. */
  lemma RoundTrip(e: Instruction)
    ensures Decode(e.Encode()) == Some(e) <==> e.Encodable()
  {
    hide Decode, Instruction.Encode, Instruction.Encodable;
    if e.LoadStore? || e.OpImm? || e.OpAmo? || e.SystemMiscMem? {
      RoundTripOp(e);
    } else if e.Size() == WordSize {
      RoundTripJump(e);
    } else if e.CAddi4spn? || e.CLw? || e.CSw? || e.CAddi? || e.CJal? || e.CLi? || e.CAddi16sp? || e.CLui?
           || e.CSrli? || e.CSrai? || e.CAndi? {
      RoundTripLow(e);
    } else {
      RoundTripHigh(e);
    }
  }
}
