/**
  Which RISC-V words the converter accepts: every defined instruction, and the reserved encodings listed
  by `Tolerated`, which it does not tell from a defined one.
 */
module Acceptance {
  import opened Wrappers
  import opened Words
  import opened Formats
  import opened Embive
  import opened Converter
  import opened Meaning
  import R = Riscv

  /** C.ADDI4SPN with a zero immediate, apart from the all-zero word, which is defined to be illegal. */
  predicate Tolerated0(w: bv32) {
    R.CFunct3(w) == 0 && R.ImmCiw(w) == 0 && w & 0xFFFF != 0
  }

  /** C.ADDI16SP and C.LUI with a zero immediate; shifts right by 32 or more. */
  predicate Tolerated1(w: bv32) {
    || (R.CFunct3(w) == 3 && (if (w >> 7) & 0x1F == 2 then R.ImmCiAddi16sp(w) == 0 else R.ImmCi(w) == 0))
    || (R.CFunct3(w) == 4 && (w >> 10) & 0x3 <= 1 && Bit(w, 12) == 1)
  }

  /** Shifts left by 32 or more; C.LWSP to x0; C.JR through x0. */
  predicate Tolerated2(w: bv32) {
    || (R.CFunct3(w) == 0 && Bit(w, 12) == 1)
    || (R.CFunct3(w) == 2 && (w >> 7) & 0x1F == 0)
    || (R.CFunct3(w) == 4 && Bit(w, 12) == 0 && (w >> 2) & 0x1F == 0 && (w >> 7) & 0x1F == 0)
  }

  /**
    MISC-MEM other than FENCE and FENCE.I; shifts by immediate with undefined high bits; LR with a
    second source; JALR with a nonzero function; SYSTEM with function 0 other than the four defined words.
   */
  predicate ToleratedWord(w: bv32) {
    match w & 0x7F
    case 0x0F => R.Funct3(w) > 1
    case 0x13 => (R.Funct3(w) == 1 && R.Funct7(w) != 0) || (R.Funct3(w) == 5 && R.Funct7(w) != 0 && R.Funct7(w) != 0x20)
    case 0x2F => R.Funct3(w) == 2 && w >> 27 == 0x02 && (w >> 20) & 0x1F != 0
    case 0x67 => R.Funct3(w) != 0
    case 0x73 => R.Funct3(w) == 0 && R.DecodeSystem(w) == None
    case _ => false
  }

  predicate Tolerated(w: bv32) {
    match w & 0x3
    case 0 => Tolerated0(w)
    case 1 => Tolerated1(w)
    case 2 => Tolerated2(w)
    case _ => ToleratedWord(w)
  }

  lemma Accepts0(w: bv32)
    ensures C0(w).Success? <==> R.DecodeQuadrant0(w).Some? || Tolerated0(w)
  {
    hide TypeCIW.FromRiscv, TypeCIW.ToEmbive, TypeCL.FromRiscv, TypeCL.ToEmbive, R.ImmCiw, R.ImmCl, R.CLow,
      R.CHigh;
  }

  lemma Accepts1Alu(w: bv32)
    ensures C1Alu(w).Success? <==> R.DecodeQuadrant1Alu(w).Some? || ((w >> 10) & 0x3 <= 1 && Bit(w, 12) == 1)
  {
    hide TypeCB1.FromRiscv, TypeCB1.ToEmbive, TypeCB2.FromRiscv, TypeCB2.ToEmbive, TypeCS.FromRiscv,
      TypeCS.ToEmbive, Bit, CBit12, R.ImmCi, R.Bits6To2, R.CLow, R.CHigh;
    CompressedBit12(w);
  }

  lemma Accepts1(w: bv32)
    ensures C1(w).Success? <==> R.DecodeQuadrant1(w).Some? || Tolerated1(w)
  {
    hide C1Alu, R.DecodeQuadrant1Alu, Bit, TypeCI1.FromRiscv, TypeCI1.ToEmbive, TypeCI2.FromRiscv,
      TypeCI2.ToEmbive, TypeCI3.FromRiscv, TypeCI3.ToEmbive, TypeCJ.FromRiscv, TypeCJ.ToEmbive,
      TypeCB4.FromRiscv, TypeCB4.ToEmbive, R.ImmCi, R.ImmCiAddi16sp, R.ImmCj, R.ImmCb, R.Rd, R.CHigh;
    LuiRd(w);
    Accepts1Alu(w);
  }

  lemma Accepts2(w: bv32)
    ensures C2(w).Success? <==> R.DecodeQuadrant2(w).Some? || Tolerated2(w)
  {
    hide Bit, CBit12, R.ImmCiLwsp, R.ImmCss, R.Bits6To2, R.Rd, R.CRs2, TypeCI4.FromRiscv, TypeCI4.ToEmbive,
      TypeCI5.FromRiscv, TypeCI5.ToEmbive, TypeCR.FromRiscv, TypeCR.ToEmbive, TypeCSS.FromRiscv,
      TypeCSS.ToEmbive;
    CompressedBit12(w);
  }

  lemma AcceptsLoad(w: bv32)
    ensures Load(w).Success? <==> R.LoadKindOf(w).Some?
    ensures Store(w).Success? <==> R.StoreKindOf(w).Some?
    ensures Branches(w).Success? <==> R.ConditionOf(w).Some?
  {
    hide TypeI.ToEmbive, TypeB.ToEmbive;
  }

  lemma AcceptsOpImm(w: bv32)
    ensures OpImmediate(w).Success?
    ensures R.DecodeOpImm(w).Some? <==>
              !((R.Funct3(w) == 1 && R.Funct7(w) != 0) || (R.Funct3(w) == 5 && R.Funct7(w) != 0 && R.Funct7(w) != 0x20))
  {
    hide TypeI.ToEmbive, TypeI.FromRiscv, OpImmFunc, R.Rd, R.Rs1, R.Rs2, R.ImmI;
    OpImmFuncs(w);
  }

  lemma AcceptsOp(w: bv32)
    ensures Op(w).Success? <==> R.AluOpOf(w).Some?
  {
    hide TypeR.ToEmbive;
  }

  lemma AmoFields(w: bv32)
    ensures TypeR.FromRiscv(w).func & 0x7 == 2 <==> R.Funct3(w) == 2
    ensures (TypeR.FromRiscv(w).func >> 5) as bv32 == w >> 27
  {
  }

  lemma AmoFuncDefined(f: bv16, v: bv32)
    requires f as bv32 == v
    ensures AmoFunc(f).Some? <==>
              v == 0x02 || v == 0x03 || v == 0x01 || v == 0x00 || v == 0x04 || v == 0x0C || v == 0x08
              || v == 0x10 || v == 0x14 || v == 0x18 || v == 0x1C
  {
  }

  lemma AcceptsAmo(w: bv32)
    ensures Amo(w).Success? <==>
              R.DecodeAmo(w).Some? || (R.Funct3(w) == 2 && w >> 27 == 0x02 && (w >> 20) & 0x1F != 0)
  {
    hide TypeR.ToEmbive, TypeR.FromRiscv, AmoFunc, R.Rd, R.Rs1, R.Rs2, R.Funct3;
    AmoFields(w);
    AmoFuncDefined(TypeR.FromRiscv(w).func >> 5, w >> 27);
  }

  lemma AcceptsSystem(w: bv32)
    ensures System(w).Success? <==> R.DecodeSystem(w).Some? || (R.Funct3(w) == 0 && R.DecodeSystem(w) == None)
  {
    hide TypeI.ToEmbive, R.Rd, R.Rs1;
  }

  lemma AcceptsWord(w: bv32)
    ensures Uncompressed(w).Success? <==> R.DecodeWord(w).Some? || ToleratedWord(w)
  {
    hide Load, OpImmediate, Store, Amo, Op, Branches, System, R.LoadKindOf, R.StoreKindOf, R.ConditionOf,
      R.AluOpOf, R.DecodeOpImm, R.DecodeAmo, R.DecodeSystem, R.Funct3, R.Funct7, R.Rd, R.Rs1, R.Rs2, R.ImmI,
      R.ImmS, R.ImmB, R.ImmU, R.ImmJ, TypeU.FromRiscv, TypeU.ToEmbive, TypeI.FromRiscv, TypeI.ToEmbive,
      TypeJ.FromRiscv, TypeJ.ToEmbive;
    AcceptsLoad(w);
    AcceptsOpImm(w);
    AcceptsOp(w);
    AcceptsAmo(w);
    AcceptsSystem(w);
  }

  /** A word is accepted exactly when it is a defined instruction or one of the tolerated encodings. */
  lemma AcceptedExactly(w: bv32)
    ensures Convert(w).Success? <==> R.Decode(w).Some? || Tolerated(w)
    ensures !(R.Decode(w).Some? && Tolerated(w))
  {
    hide C0, C1, C2, Uncompressed, R.DecodeQuadrant0, R.DecodeQuadrant1, R.DecodeQuadrant2, R.DecodeWord,
      Tolerated0, Tolerated1, Tolerated2, ToleratedWord;
    LowTwoBits(w);
    Accepts0(w);
    Accepts1(w);
    Accepts2(w);
    AcceptsWord(w);
    NeverBoth0(w);
    NeverBoth1(w);
    NeverBoth2(w);
    NeverBothWord(w);
  }

  lemma NeverBoth0(w: bv32)
    ensures !(R.DecodeQuadrant0(w).Some? && Tolerated0(w))
  {
    hide R.ImmCiw, R.ImmCl, R.CLow, R.CHigh;
  }

  lemma NeverBoth1(w: bv32)
    ensures !(R.DecodeQuadrant1(w).Some? && Tolerated1(w))
  {
    hide Bit, R.ImmCi, R.ImmCiAddi16sp, R.ImmCj, R.ImmCb, R.Rd, R.CHigh, R.CLow, R.Bits6To2;
  }

  lemma NeverBoth2(w: bv32)
    ensures !(R.DecodeQuadrant2(w).Some? && Tolerated2(w))
  {
    hide Bit, R.ImmCiLwsp, R.ImmCss, R.Bits6To2, R.Rd, R.CRs2;
  }

  lemma NeverBothWord(w: bv32)
    ensures !(R.DecodeWord(w).Some? && ToleratedWord(w))
  {
    hide R.LoadKindOf, R.StoreKindOf, R.ConditionOf, R.AluOpOf, R.DecodeOpImm, R.DecodeAmo, R.DecodeSystem,
      R.Funct3, R.Funct7, R.Rd, R.Rs1, R.Rs2, R.ImmI, R.ImmS, R.ImmB, R.ImmU, R.ImmJ;
    AcceptsOpImm(w);
    NeverBothAmo(w);
  }

  lemma NeverBothAmo(w: bv32)
    ensures w >> 27 == 0x02 && (w >> 20) & 0x1F != 0 ==> R.DecodeAmo(w) == None
  {
    hide R.Rd, R.Rs1, R.Rs2;
  }

  lemma ReservedSystemBits(w: bv32, i: TypeI)
    requires w == 0x0040_0073 && i == TypeI.FromRiscv(w)
    ensures System(w) == Full(i.ToEmbive(), SYSTEM_MISC_MEM) && i.func == 0 && i.imm == 4 && i.Encodable()
    ensures R.Decode(w) == None && Convert(w) == System(w)
  {
    hide TypeI.ToEmbive;
  }

  /** One tolerated encoding: SYSTEM with the reserved immediate 4 is kept as it is and then means MRET. */
  lemma ReservedSystemWord()
    ensures R.Decode(0x0040_0073) == None
    ensures Convert(0x0040_0073).Success? && Decodes(Convert(0x0040_0073).value.data, WordSize, R.Mret)
  {
    hide System, Convert, TypeI.ToEmbive, TypeI.FromRiscv, TypeI.Encodable, Decode, R.Decode, Reg, Signed;
    var i := TypeI.FromRiscv(0x0040_0073);
    ReservedSystemBits(0x0040_0073, i);
    SystemMiscMemRoundTrip(i);
    Conclude(i.ToEmbive() | SYSTEM_MISC_MEM, SystemMiscMem(i), R.Mret);
  }
}
