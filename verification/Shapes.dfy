/**
  The shape of what conversion produces and of what decoding yields.

  A conversion keeps the length of the instruction, which the output's opcode announces as the input's low
  two bits did, and a half-size result fits in sixteen bits.  Every word decodes to fields that fit.
 */
module Shapes {
  import opened Wrappers
  import opened Words
  import opened Formats
  import opened Embive
  import opened Converter
  import opened Meaning
  import R = Riscv

  /** The size that an Embive word's opcode gives it. */
  function OpcodeSize(data: bv32): Size {
    if Opcode(data) <= C_SWSP then HalfSize else WordSize
  }

  /** If `c` is a conversion, it has the given size, by its opcode too, and fits in that many bytes. */
  predicate WellShaped(c: Conversion, size: Size) {
    c.Success? ==>
      && c.value.size == size
      && OpcodeSize(c.value.data) == size
      && (size.HalfSize? ==> c.value.data & 0xFFFF == c.value.data)
  }

  lemma CIWShaped(w: bv32, op: bv32)
    requires op <= C_SWSP
    ensures WellShaped(Half(TypeCIW.FromRiscv(w).ToEmbive(), op), HalfSize)
  {
  }

  lemma CLShaped(w: bv32, op: bv32)
    requires op <= C_SWSP
    ensures WellShaped(Half(TypeCL.FromRiscv(w).ToEmbive(), op), HalfSize)
  {
  }

  lemma CI1Shaped(w: bv32, op: bv32)
    requires op <= C_SWSP
    ensures WellShaped(Half(TypeCI1.FromRiscv(w).ToEmbive(), op), HalfSize)
  {
  }

  lemma CI2Shaped(w: bv32, op: bv32)
    requires op <= C_SWSP
    ensures WellShaped(Half(TypeCI2.FromRiscv(w).ToEmbive(), op), HalfSize)
  {
  }

  lemma CI3Shaped(w: bv32, op: bv32)
    requires op <= C_SWSP
    ensures WellShaped(Half(TypeCI3.FromRiscv(w).ToEmbive(), op), HalfSize)
  {
  }

  lemma CI4Shaped(w: bv32, op: bv32)
    requires op <= C_SWSP
    ensures WellShaped(Half(TypeCI4.FromRiscv(w).ToEmbive(), op), HalfSize)
  {
  }

  lemma CI5Shaped(w: bv32, op: bv32)
    requires op <= C_SWSP
    ensures WellShaped(Half(TypeCI5.FromRiscv(w).ToEmbive(), op), HalfSize)
  {
  }

  lemma CB1Shaped(w: bv32, op: bv32)
    requires op <= C_SWSP
    ensures WellShaped(Half(TypeCB1.FromRiscv(w).ToEmbive(), op), HalfSize)
  {
  }

  lemma CB2Shaped(w: bv32, op: bv32)
    requires op <= C_SWSP
    ensures WellShaped(Half(TypeCB2.FromRiscv(w).ToEmbive(), op), HalfSize)
  {
  }

  lemma CB4Shaped(w: bv32, op: bv32)
    requires op <= C_SWSP
    ensures WellShaped(Half(TypeCB4.FromRiscv(w).ToEmbive(), op), HalfSize)
  {
  }

  lemma CSShaped(w: bv32, op: bv32)
    requires op <= C_SWSP
    ensures WellShaped(Half(TypeCS.FromRiscv(w).ToEmbive(), op), HalfSize)
  {
  }

  lemma CRShaped(w: bv32, op: bv32)
    requires op <= C_SWSP
    ensures WellShaped(Half(TypeCR.FromRiscv(w).ToEmbive(), op), HalfSize)
  {
  }

  lemma CSSShaped(w: bv32, op: bv32)
    requires op <= C_SWSP
    ensures WellShaped(Half(TypeCSS.FromRiscv(w).ToEmbive(), op), HalfSize)
  {
  }

  lemma CJShaped(w: bv32, op: bv32)
    requires op <= C_SWSP
    ensures WellShaped(Half(TypeCJ.FromRiscv(w).ToEmbive(), op), HalfSize)
  {
  }

  lemma UShaped(t: TypeU, op: bv32)
    requires t.Encodable() && C_SWSP < op < 32
    ensures WellShaped(Full(t.ToEmbive(), op), WordSize)
  {
    hide TypeU.ToEmbive, TypeU.Encodable;
    t.RoundTrip(op);
  }

  lemma JShaped(t: TypeJ, op: bv32)
    requires t.Encodable() && C_SWSP < op < 32
    ensures WellShaped(Full(t.ToEmbive(), op), WordSize)
  {
    hide TypeJ.ToEmbive, TypeJ.Encodable;
    t.RoundTrip(op);
  }

  lemma BShaped(t: TypeB, op: bv32)
    requires t.Encodable() && C_SWSP < op < 32
    ensures WellShaped(Full(t.ToEmbive(), op), WordSize)
  {
    hide TypeB.ToEmbive, TypeB.Encodable;
    t.RoundTrip(op);
  }

  lemma IShaped(t: TypeI, op: bv32)
    requires t.Encodable() && C_SWSP < op < 32
    ensures WellShaped(Full(t.ToEmbive(), op), WordSize)
  {
    hide TypeI.ToEmbive, TypeI.Encodable;
    t.RoundTrip(op);
  }

  lemma RShaped(t: TypeR, op: bv32)
    requires t.Encodable() && C_SWSP < op < 32
    ensures WellShaped(Full(t.ToEmbive(), op), WordSize)
  {
    hide TypeR.ToEmbive, TypeR.Encodable;
    t.RoundTrip(op);
  }

  lemma ShapedData(c: Conversion, size: Size)
    requires WellShaped(c, size) && c.Success?
    ensures c.value.size == size && OpcodeSize(c.value.data) == size
    ensures size.HalfSize? ==> Low16(c.value.data) == c.value.data
  {
    hide OpcodeSize;
  }

  lemma RefusedShaped(c: Conversion, size: Size)
    requires c.Failure?
    ensures WellShaped(c, size)
  {
  }

  lemma C0Shaped(w: bv32)
    ensures WellShaped(C0(w), HalfSize)
  {
    hide WellShaped, Half, TypeCIW.FromRiscv, TypeCIW.ToEmbive, TypeCL.FromRiscv, TypeCL.ToEmbive;
    RefusedShaped(RefusedHalf(w), HalfSize);
    CIWShaped(w, C_ADDI4SPN);
    CLShaped(w, C_LW);
    CLShaped(w, C_SW);
  }

  lemma C1AluShaped(w: bv32)
    ensures WellShaped(C1Alu(w), HalfSize)
  {
    hide WellShaped, Half, TypeCB1.FromRiscv, TypeCB1.ToEmbive, TypeCB2.FromRiscv, TypeCB2.ToEmbive,
      TypeCS.FromRiscv, TypeCS.ToEmbive;
    RefusedShaped(RefusedHalf(w), HalfSize);
    CB1Shaped(w, C_SRLI);
    CB1Shaped(w, C_SRAI);
    CB2Shaped(w, C_ANDI);
    CSShaped(w, C_SUB);
    CSShaped(w, C_XOR);
    CSShaped(w, C_OR);
    CSShaped(w, C_AND);
  }

  lemma C1Shaped(w: bv32)
    ensures WellShaped(C1(w), HalfSize)
  {
    hide WellShaped, Half, TypeCI1.FromRiscv, TypeCI1.ToEmbive, TypeCI2.FromRiscv, TypeCI2.ToEmbive,
      TypeCI3.FromRiscv, TypeCI3.ToEmbive, TypeCJ.FromRiscv, TypeCJ.ToEmbive, TypeCB4.FromRiscv,
      TypeCB4.ToEmbive, C1Alu;
    RefusedShaped(RefusedHalf(w), HalfSize);
    C1AluShaped(w);
    CI1Shaped(w, C_ADDI);
    CJShaped(w, C_JAL);
    CI1Shaped(w, C_LI);
    CI2Shaped(w, C_ADDI16SP);
    CI3Shaped(w, C_LUI);
    CJShaped(w, C_J);
    CB4Shaped(w, C_BEQZ);
    CB4Shaped(w, C_BNEZ);
  }

  lemma C2Shaped(w: bv32)
    ensures WellShaped(C2(w), HalfSize)
  {
    hide WellShaped, Half, TypeCI4.FromRiscv, TypeCI4.ToEmbive, TypeCI5.FromRiscv, TypeCI5.ToEmbive,
      TypeCR.FromRiscv, TypeCR.ToEmbive, TypeCSS.FromRiscv, TypeCSS.ToEmbive;
    RefusedShaped(RefusedHalf(w), HalfSize);
    CI4Shaped(w, C_SLLI);
    CI5Shaped(w, C_LWSP);
    CRShaped(w, C_JR_MV);
    CRShaped(w, C_EBREAK_JALR_ADD);
    CSSShaped(w, C_SWSP);
  }

  lemma LoadFuncBound(func: bv8)
    ensures LoadFunc(func).Some? ==> LoadFunc(func).value < 8
    ensures StoreFunc(func).Some? ==> StoreFunc(func).value < 8
    ensures BranchFunc(func).Some? ==> BranchFunc(func).value < 8
    ensures OpImmFunc(func).Some? ==> OpImmFunc(func).value < 8
    ensures CsrFunc(func).Some? ==> CsrFunc(func).value < 8
  {
  }

  lemma OpFuncBound(func: bv16)
    ensures OpFunc(func).Some? ==> OpFunc(func).value < 0x400
    ensures AmoFunc(func).Some? ==> AmoFunc(func).value < 0x400
  {
  }

  /** The immediate written for a SYSTEM instruction with funct3 = 0 still fits its field. */
  lemma SystemImmFits(i: TypeI)
    requires i.Encodable()
    ensures i.(imm := SystemImm(i.imm)).Encodable()
    ensures i.(func := 0, imm := 2).Encodable()
  {
  }

  lemma ImmediateShaped(w: bv32)
    ensures WellShaped(Load(w), WordSize) && WellShaped(OpImmediate(w), WordSize)
  {
    hide WellShaped, Full, TypeI.FromRiscv, TypeI.ToEmbive, TypeI.Encodable, LoadFunc, OpImmFunc;
    var i := TypeI.FromRiscv(w);
    LoadFuncBound(i.func);
    if LoadFunc(i.func).Some? {
      FuncFits(w, i.(func := LoadFunc(i.func).value));
      IShaped(i.(func := LoadFunc(i.func).value), LOAD_STORE);
    } else {
      RefusedShaped(Load(w), WordSize);
    }
    if OpImmFunc(i.func).Some? {
      FuncFits(w, i.(func := OpImmFunc(i.func).value));
      IShaped(i.(func := OpImmFunc(i.func).value), OP_IMM);
    } else {
      RefusedShaped(OpImmediate(w), WordSize);
    }
  }

  lemma SystemShaped(w: bv32)
    ensures WellShaped(System(w), WordSize) && WellShaped(MiscMem(w), WordSize)
  {
    hide WellShaped, Full, TypeI.FromRiscv, TypeI.ToEmbive, TypeI.Encodable, CsrFunc, SystemImm;
    var i := TypeI.FromRiscv(w);
    TypeI.Fits(w);
    SystemImmFits(i);
    IShaped(i.(func := 0, imm := 2), SYSTEM_MISC_MEM);
    LoadFuncBound(i.func);
    if i.func == 0 {
      IShaped(i.(imm := SystemImm(i.imm)), SYSTEM_MISC_MEM);
    } else if CsrFunc(i.func).Some? {
      FuncFits(w, i.(func := CsrFunc(i.func).value));
      IShaped(i.(func := CsrFunc(i.func).value), SYSTEM_MISC_MEM);
    } else {
      RefusedShaped(System(w), WordSize);
    }
  }

  lemma StoreShaped(w: bv32)
    ensures WellShaped(Store(w), WordSize)
  {
    hide WellShaped, Full, TypeS.FromRiscv, TypeI.ToEmbive, TypeI.Encodable, StoreFunc;
    var s := TypeS.FromRiscv(w);
    LoadFuncBound(s.func);
    if StoreFunc(s.func).Some? {
      StoreFits(w, StoreFunc(s.func).value);
      IShaped(TypeI(s.rs2, s.rs1, s.imm, StoreFunc(s.func).value), LOAD_STORE);
    } else {
      RefusedShaped(Store(w), WordSize);
    }
  }

  lemma BranchShaped(w: bv32)
    ensures WellShaped(Branches(w), WordSize)
  {
    hide WellShaped, Full, TypeB.FromRiscv, TypeB.ToEmbive, TypeB.Encodable, BranchFunc;
    var b := TypeB.FromRiscv(w);
    LoadFuncBound(b.func);
    if BranchFunc(b.func).Some? {
      BranchFits(w, BranchFunc(b.func).value);
      BShaped(b.(func := BranchFunc(b.func).value), BRANCH);
    } else {
      RefusedShaped(Branches(w), WordSize);
    }
  }

  lemma OpShaped(w: bv32)
    ensures WellShaped(Op(w), WordSize)
  {
    hide WellShaped, Full, TypeR.FromRiscv, TypeR.ToEmbive, TypeR.Encodable, OpFunc;
    var r := TypeR.FromRiscv(w);
    OpFuncBound(r.func);
    if OpFunc(r.func).Some? {
      RFits(w, OpFunc(r.func).value);
      RShaped(r.(func := OpFunc(r.func).value), OP_AMO);
    } else {
      RefusedShaped(Op(w), WordSize);
    }
  }

  lemma AmoShaped(w: bv32)
    ensures WellShaped(Amo(w), WordSize)
  {
    hide WellShaped, Full, TypeR.FromRiscv, TypeR.ToEmbive, TypeR.Encodable, AmoFunc;
    var r := TypeR.FromRiscv(w);
    OpFuncBound(r.func >> 5);
    if r.func & 0x7 == 2 && AmoFunc(r.func >> 5).Some? {
      RFits(w, AmoFunc(r.func >> 5).value);
      RShaped(r.(func := AmoFunc(r.func >> 5).value), OP_AMO);
    } else {
      RefusedShaped(Amo(w), WordSize);
    }
  }

  lemma UncompressedShaped(w: bv32)
    ensures WellShaped(Uncompressed(w), WordSize)
  {
    hide WellShaped, Full, Load, MiscMem, OpImmediate, Store, Amo, Op, Branches, System, TypeU.FromRiscv,
      TypeU.ToEmbive, TypeU.Encodable, TypeI.FromRiscv, TypeI.ToEmbive, TypeI.Encodable, TypeJ.FromRiscv,
      TypeJ.ToEmbive, TypeJ.Encodable;
    ImmediateShaped(w);
    SystemShaped(w);
    StoreShaped(w);
    BranchShaped(w);
    OpShaped(w);
    AmoShaped(w);
    TypeU.Fits(w);
    UShaped(TypeU.FromRiscv(w), AUIPC);
    UShaped(TypeU.FromRiscv(w), LUI);
    TypeI.Fits(w);
    IShaped(TypeI.FromRiscv(w), JALR);
    TypeJ.Fits(w);
    JShaped(TypeJ.FromRiscv(w), JAL);
    RefusedShaped(Failure(InvalidInstruction(w)), WordSize);
  }

  /** Every conversion keeps its length, and no half-size result is cut short by a two-byte copy. */
  lemma ConvertShaped(w: bv32)
    ensures WellShaped(Convert(w), SizeOf(w))
  {
    hide WellShaped, C0, C1, C2, Uncompressed;
    LowTwoBits(w);
    C0Shaped(w);
    C1Shaped(w);
    C2Shaped(w);
    UncompressedShaped(w);
  }

  lemma CIWDecoded(w: bv32)
    ensures TypeCIW.FromEmbive(w).Encodable()
  {
  }

  lemma CLDecoded(w: bv32)
    ensures TypeCL.FromEmbive(w).Encodable()
  {
  }

  lemma CI1Decoded(w: bv32)
    ensures TypeCI1.FromEmbive(w).Encodable()
  {
  }

  lemma CI2Decoded(w: bv32)
    ensures TypeCI2.FromEmbive(w).Encodable()
  {
  }

  lemma CI3Decoded(w: bv32)
    ensures TypeCI3.FromEmbive(w).Encodable()
  {
  }

  lemma CI4Decoded(w: bv32)
    ensures TypeCI4.FromEmbive(w).Encodable()
  {
  }

  lemma CI5Decoded(w: bv32)
    ensures TypeCI5.FromEmbive(w).Encodable()
  {
  }

  lemma CB1Decoded(w: bv32)
    ensures TypeCB1.FromEmbive(w).Encodable()
  {
  }

  lemma CB2Decoded(w: bv32)
    ensures TypeCB2.FromEmbive(w).Encodable()
  {
  }

  lemma CB4Decoded(w: bv32)
    ensures TypeCB4.FromEmbive(w).Encodable()
  {
  }

  lemma CSDecoded(w: bv32)
    ensures TypeCS.FromEmbive(w).Encodable()
  {
  }

  lemma CRDecoded(w: bv32)
    ensures TypeCR.FromEmbive(w).Encodable()
  {
  }

  lemma CSSDecoded(w: bv32)
    ensures TypeCSS.FromEmbive(w).Encodable()
  {
  }

  lemma CJDecoded(w: bv32)
    ensures TypeCJ.FromEmbive(w).Encodable()
  {
  }

  lemma UDecoded(w: bv32)
    ensures TypeU.FromEmbive(w).Encodable()
  {
  }

  lemma JDecoded(w: bv32)
    ensures TypeJ.FromEmbive(w).Encodable()
  {
  }

  lemma BDecoded(w: bv32)
    ensures TypeB.FromEmbive(w).Encodable()
  {
  }

  lemma IDecoded(w: bv32)
    ensures TypeI.FromEmbive(w).Encodable()
  {
  }

  lemma RDecoded(w: bv32)
    ensures TypeR.FromEmbive(w).Encodable()
  {
  }

  /** `e` has a half-size format and holds the fields that the format reads from the word. */
  predicate HalfFrom(e: Instruction, w: bv32) {
    match e
    case CAddi4spn(t) => t == TypeCIW.FromEmbive(w)
    case CLw(t) => t == TypeCL.FromEmbive(w)
    case CSw(t) => t == TypeCL.FromEmbive(w)
    case CAddi(t) => t == TypeCI1.FromEmbive(w)
    case CJal(t) => t == TypeCJ.FromEmbive(w)
    case CLi(t) => t == TypeCI1.FromEmbive(w)
    case CAddi16sp(t) => t == TypeCI2.FromEmbive(w)
    case CLui(t) => t == TypeCI3.FromEmbive(w)
    case CSrli(t) => t == TypeCB1.FromEmbive(w)
    case CSrai(t) => t == TypeCB1.FromEmbive(w)
    case CAndi(t) => t == TypeCB2.FromEmbive(w)
    case CSub(t) => t == TypeCS.FromEmbive(w)
    case CXor(t) => t == TypeCS.FromEmbive(w)
    case COr(t) => t == TypeCS.FromEmbive(w)
    case CAnd(t) => t == TypeCS.FromEmbive(w)
    case CJ(t) => t == TypeCJ.FromEmbive(w)
    case CBeqz(t) => t == TypeCB4.FromEmbive(w)
    case CBnez(t) => t == TypeCB4.FromEmbive(w)
    case CSlli(t) => t == TypeCI4.FromEmbive(w)
    case CLwsp(t) => t == TypeCI5.FromEmbive(w)
    case CJrMv(t) => t == TypeCR.FromEmbive(w)
    case CEbreakJalrAdd(t) => t == TypeCR.FromEmbive(w)
    case CSwsp(t) => t == TypeCSS.FromEmbive(w)
    case _ => false
  }

  /** The same for the four-byte formats. */
  predicate WordFrom(e: Instruction, w: bv32) {
    match e
    case Auipc(t) => t == TypeU.FromEmbive(w)
    case Branch(t) => t == TypeB.FromEmbive(w)
    case Jal(t) => t == TypeJ.FromEmbive(w)
    case Jalr(t) => t == TypeI.FromEmbive(w)
    case LoadStore(t) => t == TypeI.FromEmbive(w)
    case Lui(t) => t == TypeU.FromEmbive(w)
    case OpImm(t) => t == TypeI.FromEmbive(w)
    case OpAmo(t) => t == TypeR.FromEmbive(w)
    case SystemMiscMem(t) => t == TypeI.FromEmbive(w)
    case _ => false
  }

  lemma LowReads(w: bv32)
    requires Opcode(w) <= C_ANDI
    ensures DecodeLow(w).Some? && HalfFrom(DecodeLow(w).value, w)
  {
    hide Opcode, TypeCIW.FromEmbive, TypeCL.FromEmbive, TypeCI1.FromEmbive, TypeCJ.FromEmbive,
      TypeCI2.FromEmbive, TypeCI3.FromEmbive, TypeCB1.FromEmbive, TypeCB2.FromEmbive, TypeCS.FromEmbive,
      TypeCB4.FromEmbive, TypeCI4.FromEmbive, TypeCI5.FromEmbive, TypeCR.FromEmbive, TypeCSS.FromEmbive;
  }

  lemma HighReads(w: bv32)
    requires C_ANDI < Opcode(w) <= C_SWSP
    ensures DecodeHigh(w).Some? && HalfFrom(DecodeHigh(w).value, w)
  {
    hide Opcode, TypeCIW.FromEmbive, TypeCL.FromEmbive, TypeCI1.FromEmbive, TypeCJ.FromEmbive,
      TypeCI2.FromEmbive, TypeCI3.FromEmbive, TypeCB1.FromEmbive, TypeCB2.FromEmbive, TypeCS.FromEmbive,
      TypeCB4.FromEmbive, TypeCI4.FromEmbive, TypeCI5.FromEmbive, TypeCR.FromEmbive, TypeCSS.FromEmbive;
  }

  lemma WideReads(w: bv32)
    requires C_SWSP < Opcode(w)
    ensures DecodeWide(w).Some? && WordFrom(DecodeWide(w).value, w)
  {
    hide Opcode, TypeU.FromEmbive, TypeB.FromEmbive, TypeJ.FromEmbive, TypeI.FromEmbive, TypeR.FromEmbive;
    LowBits(w);
  }

  lemma HalfFits(e: Instruction, w: bv32)
    requires HalfFrom(e, w)
    ensures e.Encodable() && e.Size() == HalfSize
  {
    hide TypeCIW.FromEmbive, TypeCIW.Encodable, TypeCL.FromEmbive, TypeCL.Encodable, TypeCI1.FromEmbive,
      TypeCI1.Encodable, TypeCJ.FromEmbive, TypeCJ.Encodable, TypeCI2.FromEmbive, TypeCI2.Encodable,
      TypeCI3.FromEmbive, TypeCI3.Encodable, TypeCB1.FromEmbive, TypeCB1.Encodable, TypeCB2.FromEmbive,
      TypeCB2.Encodable, TypeCS.FromEmbive, TypeCS.Encodable, TypeCB4.FromEmbive, TypeCB4.Encodable,
      TypeCI4.FromEmbive, TypeCI4.Encodable, TypeCI5.FromEmbive, TypeCI5.Encodable, TypeCR.FromEmbive,
      TypeCR.Encodable, TypeCSS.FromEmbive, TypeCSS.Encodable;
    CIWDecoded(w);
    CLDecoded(w);
    CI1Decoded(w);
    CJDecoded(w);
    CI2Decoded(w);
    CI3Decoded(w);
    CB1Decoded(w);
    CB2Decoded(w);
    CSDecoded(w);
    CB4Decoded(w);
    CI4Decoded(w);
    CI5Decoded(w);
    CRDecoded(w);
    CSSDecoded(w);
  }

  lemma WordFits(e: Instruction, w: bv32)
    requires WordFrom(e, w)
    ensures e.Encodable() && e.Size() == WordSize
  {
    hide TypeU.FromEmbive, TypeU.Encodable, TypeB.FromEmbive, TypeB.Encodable, TypeJ.FromEmbive,
      TypeJ.Encodable, TypeI.FromEmbive, TypeI.Encodable, TypeR.FromEmbive, TypeR.Encodable;
    UDecoded(w);
    BDecoded(w);
    JDecoded(w);
    IDecoded(w);
    RDecoded(w);
  }

  /** Every word decodes, to fields that fit their formats and to a size that its opcode gives. */
  lemma DecodeShaped(w: bv32)
    ensures Decode(w).Some? && Decode(w).value.Encodable() && Decode(w).value.Size() == OpcodeSize(w)
  {
    hide DecodeLow, DecodeHigh, DecodeWide, HalfFrom, WordFrom, Instruction.Encodable, Instruction.Size, Opcode;
    if Opcode(w) <= C_ANDI {
      LowReads(w);
      HalfFits(DecodeLow(w).value, w);
    } else if Opcode(w) <= C_SWSP {
      HighReads(w);
      HalfFits(DecodeHigh(w).value, w);
    } else {
      WideReads(w);
      WordFits(DecodeWide(w).value, w);
    }
  }
}
