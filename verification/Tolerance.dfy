/**
  What the converter makes of words that are not defined instructions: the tolerated encodings mean what
  the defined instruction with the same opcode and function would, and the rest are refused.
 */
module Tolerance {
  import opened Wrappers
  import opened Words
  import opened Formats
  import opened Embive
  import opened Converter
  import opened Meaning
  import opened Acceptance
  import R = Riscv

  // Refusals.

  lemma RefusedCompressed(w: bv32)
    ensures C0(w).Failure? ==> C0(w).error == InvalidInstruction(w & 0xFFFF)
    ensures C1(w).Failure? ==> C1(w).error == InvalidInstruction(w & 0xFFFF)
    ensures C2(w).Failure? ==> C2(w).error == InvalidInstruction(w & 0xFFFF)
  {
    hide TypeCIW.FromRiscv, TypeCIW.ToEmbive, TypeCL.FromRiscv, TypeCL.ToEmbive, TypeCI1.FromRiscv,
      TypeCI1.ToEmbive, TypeCI2.FromRiscv, TypeCI2.ToEmbive, TypeCI3.FromRiscv, TypeCI3.ToEmbive,
      TypeCJ.FromRiscv, TypeCJ.ToEmbive, TypeCB1.FromRiscv, TypeCB1.ToEmbive, TypeCB2.FromRiscv,
      TypeCB2.ToEmbive, TypeCB4.FromRiscv, TypeCB4.ToEmbive, TypeCS.FromRiscv, TypeCS.ToEmbive,
      TypeCI4.FromRiscv, TypeCI4.ToEmbive, TypeCI5.FromRiscv, TypeCI5.ToEmbive, TypeCR.FromRiscv,
      TypeCR.ToEmbive, TypeCSS.FromRiscv, TypeCSS.ToEmbive, CFunct3, CBit12, CBits11To10, CBits6To5;
  }

  lemma RefusedWord(w: bv32)
    ensures Uncompressed(w).Failure? ==> Uncompressed(w).error == InvalidInstruction(w)
  {
    hide TypeU.FromRiscv, TypeU.ToEmbive, TypeI.FromRiscv, TypeI.ToEmbive, TypeJ.FromRiscv, TypeJ.ToEmbive,
      TypeS.FromRiscv, TypeB.FromRiscv, TypeB.ToEmbive, TypeR.FromRiscv, TypeR.ToEmbive, LoadFunc, StoreFunc,
      BranchFunc, OpImmFunc, OpFunc, AmoFunc, CsrFunc, SystemImm;
  }

  /** A word as errors name it: a compressed one by its low half. */
  function Reported(w: bv32): bv32 { if w & 0x3 == 3 then w else w & 0xFFFF }

  /** A word that is neither defined nor tolerated is refused and named. */
  lemma RefusedExactly(w: bv32)
    ensures if R.Decode(w).Some? || Tolerated(w) then Convert(w).Success?
            else Convert(w) == Failure(InvalidInstruction(Reported(w)))
  {
    hide C0, C1, C2, Uncompressed, R.Decode, Tolerated;
    AcceptedExactly(w);
    LowTwoBits(w);
    RefusedCompressed(w);
    RefusedWord(w);
  }

  // Tolerated encodings.

  /** SYSTEM with function 0, by its immediate: Embive's own numbers 2, 3 and 4 pass through. */
  function PrivilegedMeaning(imm: bv32): R.Instr {
    match imm
    case 0x000 => R.Ecall
    case 0x001 => R.Ebreak
    case 0x105 => R.Wfi
    case 0x302 => R.Mret
    case 0x002 => R.Fence
    case 0x003 => R.Wfi
    case 0x004 => R.Mret
    case _ => R.Illegal
  }

  /** What a tolerated word is converted as. */
  function ToleratedMeaning(w: bv32): R.Instr {
    match w & 0x3
    case 0 => R.Illegal
    case 1 =>
      if R.CFunct3(w) == 3 then
        if (w >> 7) & 0x1F == 2 then R.OpImm(R.ADD, 2, 2, 0) else R.Lui(R.Rd(w), 0)
      else
        R.OpImm(if (w >> 10) & 0x3 == 0 then R.SRL else R.SRA, R.CHigh(w), R.CHigh(w), 32 + R.Bits6To2(w))
    case 2 =>
      (match R.CFunct3(w)
       case 0 => R.OpImm(R.SLL, R.Rd(w), R.Rd(w), 32 + R.Bits6To2(w))
       case 2 => R.Load(R.LW, R.Rd(w), 2, R.ImmCiLwsp(w))
       case _ => R.Jalr(0, R.Rd(w), 0))
    case _ =>
      (match w & 0x7F
       case 0x0F => R.Fence
       case 0x13 =>
         R.OpImm(if R.Funct3(w) == 1 then R.SLL else if (w >> 30) & 1 == 1 then R.SRA else R.SRL,
                 R.Rd(w), R.Rs1(w), R.Rs2(w))
       case 0x2F => R.LoadReserved(R.Rd(w), R.Rs1(w))
       case 0x67 => R.Jalr(R.Rd(w), R.Rs1(w), R.ImmI(w))
       case _ => PrivilegedMeaning(w >> 20))
  }

  lemma Tolerated0Means(w: bv32)
    requires Tolerated0(w)
    ensures Means(C0(w), HalfSize, R.Illegal)
  {
    hide Means, TypeCIW.FromRiscv, TypeCIW.ToEmbive, TypeCL.FromRiscv, TypeCL.ToEmbive, R.ImmCiw;
    CAddi4spnMeans(w);
  }

  lemma Tolerated1Means(w: bv32)
    requires Tolerated1(w) && w & 0x3 == 1
    ensures Means(C1(w), HalfSize, ToleratedMeaning(w))
  {
    hide Means, TypeCI1.FromRiscv, TypeCI1.ToEmbive, TypeCI2.FromRiscv, TypeCI2.ToEmbive, TypeCI3.FromRiscv,
      TypeCI3.ToEmbive, TypeCJ.FromRiscv, TypeCJ.ToEmbive, TypeCB4.FromRiscv, TypeCB4.ToEmbive, TypeCB1.FromRiscv,
      TypeCB1.ToEmbive, R.ImmCi, R.ImmCiAddi16sp, R.Rd, R.CHigh, R.Bits6To2, Bit;
    LuiRd(w);
    CAddi16spMeans(w);
    CLuiMeans(w);
    CSrliMeans(w);
    CSraiMeans(w);
  }

  lemma Tolerated2Means(w: bv32)
    requires Tolerated2(w) && w & 0x3 == 2
    ensures Means(C2(w), HalfSize, ToleratedMeaning(w))
  {
    hide Means, Bit, CBit12, TypeCI4.FromRiscv, TypeCI4.ToEmbive, TypeCI5.FromRiscv, TypeCI5.ToEmbive,
      TypeCR.FromRiscv, TypeCR.ToEmbive, TypeCSS.FromRiscv, TypeCSS.ToEmbive, R.ImmCiLwsp, R.Bits6To2, R.Rd, R.CRs2;
    CompressedBit12(w);
    CSlliMeans(w);
    CLwspMeans(w);
    CJrMvMeans(w);
  }

  // Words of 32 bits.

  lemma ShiftSelect(w: bv32)
    ensures TypeI.FromRiscv(w).imm & 0x400 != 0 <==> (w >> 30) & 1 == 1
  {
  }

  lemma ShiftKept(w: bv32, i: TypeI)
    requires R.Funct3(w) == 1 || R.Funct3(w) == 5
    requires i.func as bv32 == R.Funct3(w) && i.imm & 0x1F == (w >> 20) & 0x1F
    requires i.imm & 0x400 != 0 <==> (w >> 30) & 1 == 1
    requires Reg(i.rdRs2) == R.Rd(w) && Reg(i.rs1) == R.Rs1(w)
    ensures OpImmMeaning(i) == R.OpImm(if R.Funct3(w) == 1 then R.SLL else if (w >> 30) & 1 == 1 then R.SRA else R.SRL,
                                       R.Rd(w), R.Rs1(w), R.Rs2(w))
  {
    hide Reg, Nat, Signed, R.Rd, R.Rs1;
  }

  lemma MeanOpImm(i: TypeI)
    ensures Mean(OpImm(i)) == OpImmMeaning(i)
  {
    hide OpImmMeaning;
  }

  lemma ShiftMeans(w: bv32)
    requires R.Funct3(w) == 1 || R.Funct3(w) == 5
    ensures Means(OpImmediate(w), WordSize,
                  R.OpImm(if R.Funct3(w) == 1 then R.SLL else if (w >> 30) & 1 == 1 then R.SRA else R.SRL,
                          R.Rd(w), R.Rs1(w), R.Rs2(w)))
  {
    hide Reg, Signed, Decode, Means, Mean, OpImmMeaning, OpImmFunc, TypeI.FromRiscv, TypeI.ToEmbive,
      TypeI.Encodable, R.Rd, R.Rs1, R.Rs2, R.ImmI, R.Funct3;
    var t := TypeI.FromRiscv(w);
    OpImmFuncs(w);
    OpImmBits(w);
    ShiftSelect(w);
    TypeI.Fits(w);
    OpImmRoundTrip(t);
    FieldsI(w);
    ShiftKept(w, t);
    MeanOpImm(t);
    Conclude(t.ToEmbive() | OP_IMM, OpImm(t), OpImmMeaning(t));
  }

  lemma LoadReservedBits(w: bv32)
    requires R.Funct3(w) == 2 && w >> 27 == 0x02
    ensures TypeR.FromRiscv(w).func & 0x7 == 2 && AmoFunc(TypeR.FromRiscv(w).func >> 5) == Some(18)
  {
  }

  lemma LoadReservedMeans(w: bv32)
    requires R.Funct3(w) == 2 && w >> 27 == 0x02
    ensures Means(Amo(w), WordSize, R.LoadReserved(R.Rd(w), R.Rs1(w)))
  {
    hide Reg, Decode, Means, Mean, AmoFunc, TypeR.FromRiscv, TypeR.ToEmbive, TypeR.Encodable, R.Rd, R.Rs1, R.Rs2,
      R.Funct3;
    LoadReservedBits(w);
    var t := TypeR.FromRiscv(w).(func := 18);
    RFits(w, t.func);
    OpAmoRoundTrip(t);
    FieldsR(w);
    AtomicKept(t);
    Conclude(t.ToEmbive() | OP_AMO, OpAmo(t), R.LoadReserved(R.Rd(w), R.Rs1(w)));
  }

  lemma SignCopiedSet(w: bv32)
    requires w & 0x8000_0000 != 0
    ensures w >> 20 >= 0x800 && Sar(w & 0xFFF0_0000, 20) == (w >> 20) | 0xFFFF_F000
  {
  }

  lemma SignCopiedClear(w: bv32)
    requires w & 0x8000_0000 == 0
    ensures w >> 20 < 0x800 && Sar(w & 0xFFF0_0000, 20) == w >> 20
  {
  }

  lemma SignCopied(w: bv32)
    ensures TypeI.FromRiscv(w).imm == if w >> 20 < 0x800 then w >> 20 else (w >> 20) | 0xFFFF_F000
  {
    hide Sar, Field5, Field3;
    if w & 0x8000_0000 != 0 {
      SignCopiedSet(w);
    } else {
      SignCopiedClear(w);
    }
  }

  lemma PrivilegedKept(i: TypeI, field: bv32)
    requires i.func == 0 && field < 0x1000
    requires i.imm == if field < 0x800 then field else field | 0xFFFF_F000
    ensures SystemMeaning(i.(imm := SystemImm(i.imm))) == PrivilegedMeaning(field)
  {
  }

  lemma FieldBound(w: bv32)
    ensures w >> 20 < 0x1000
    ensures R.Funct3(w) == 0 ==> TypeI.FromRiscv(w).func == 0
  {
  }

  lemma ReservedPrivilegedMeans(w: bv32)
    requires R.Funct3(w) == 0
    ensures Means(System(w), WordSize, PrivilegedMeaning(w >> 20))
    ensures System(w).Success? && Decode(System(w).value.data).Some?
    ensures Decode(System(w).value.data).value.SystemMiscMem?
  {
    hide Reg, Signed, Decode, Means, Mean, SystemMeaning, PrivilegedMeaning, SystemImm, TypeI.FromRiscv,
      TypeI.ToEmbive, TypeI.Encodable, R.Funct3;
    var i := TypeI.FromRiscv(w);
    FieldBound(w);
    SignCopied(w);
    PrivilegedKept(i, w >> 20);
    var t := i.(imm := SystemImm(i.imm));
    SystemMeans(t);
    SystemFits(w);
    SystemMiscMemRoundTrip(t);
    Conclude(t.ToEmbive() | SYSTEM_MISC_MEM, SystemMiscMem(t), PrivilegedMeaning(w >> 20));
  }

  lemma SystemFits(w: bv32)
    ensures var i := TypeI.FromRiscv(w); i.(imm := SystemImm(i.imm)).Encodable()
  {
    TypeI.Fits(w);
  }

  lemma ToleratedWordMeans(w: bv32)
    requires ToleratedWord(w) && w & 0x3 == 3
    ensures Means(Uncompressed(w), WordSize, ToleratedMeaning(w))
  {
    hide Means, MiscMem, OpImmediate, Amo, System, R.DecodeSystem, R.Funct3, R.Funct7, R.Rd, R.Rs1, R.Rs2,
      R.ImmI, TypeI.FromRiscv, TypeI.ToEmbive, PrivilegedMeaning;
    match w & 0x7F {
      case 0x0F => FenceMeans(w);
      case 0x13 => ShiftMeans(w);
      case 0x2F => LoadReservedMeans(w);
      case 0x67 => JalrMeans(w);
      case _ => ReservedPrivilegedMeans(w);
    }
  }

  /** A tolerated word is converted as `ToleratedMeaning` says; with `ConvertMeans`, all accepted words are known. */
  lemma ToleratedMeans(w: bv32)
    requires Tolerated(w)
    ensures Means(Convert(w), SizeOf(w), ToleratedMeaning(w))
  {
    hide Means, C0, C1, C2, Uncompressed, ToleratedMeaning, Tolerated0, Tolerated1, Tolerated2, ToleratedWord;
    LowTwoBits(w);
    match w & 0x3 {
      case 0 => Tolerated0Means(w); IllegalFor0(w);
      case 1 => Tolerated1Means(w);
      case 2 => Tolerated2Means(w);
      case _ => ToleratedWordMeans(w);
    }
  }

  lemma IllegalFor0(w: bv32)
    requires w & 0x3 == 0
    ensures ToleratedMeaning(w) == R.Illegal
  {
  }

  /** What any word is converted as, if it is converted. */
  function Accepted(w: bv32): Option<R.Instr> {
    if R.Decode(w).Some? then R.Decode(w) else if Tolerated(w) then Some(ToleratedMeaning(w)) else None
  }

  /** Conversion succeeds on the accepted words alone, and keeps what they mean. */
  lemma ConvertExactly(w: bv32)
    ensures match Accepted(w)
            case Some(r) => Means(Convert(w), SizeOf(w), r)
            case None => Convert(w) == Failure(InvalidInstruction(Reported(w)))
  {
    hide R.Decode, Convert, Tolerated, ToleratedMeaning, Means, Reported;
    RefusedExactly(w);
    if R.Decode(w).Some? {
      ConvertMeans(w, R.Decode(w).value);
    } else if Tolerated(w) {
      ToleratedMeans(w);
    }
  }

  lemma WideTolerated(w: bv32)
    requires ToleratedWord(w) && ToleratedMeaning(w) == R.Illegal && w & 0x3 == 3
    ensures w & 0x7F == 0x73 && R.Funct3(w) == 0
  {
    hide PrivilegedMeaning, R.Funct3, R.Funct7, R.DecodeSystem, R.Rd, R.Rs1, R.Rs2, R.ImmI;
    match w & 0x7F {
      case 0x0F =>
      case 0x13 =>
      case 0x2F =>
      case 0x67 =>
      case 0x73 =>
      case _ =>
    }
  }

  /** The illegal words of 32 bits that are tolerated are SYSTEM instructions. */
  lemma WideIllegal(w: bv32)
    requires Tolerated(w) && ToleratedMeaning(w) == R.Illegal && w & 0x3 == 3
    ensures Convert(w).Success? && Decode(Convert(w).value.data).Some?
    ensures Decode(Convert(w).value.data).value.SystemMiscMem?
  {
    hide Decode, System, ToleratedMeaning, ToleratedWord, PrivilegedMeaning, R.Funct3, Means;
    WideTolerated(w);
    ReservedPrivilegedMeans(w);
    ConvertSystem(w);
  }

  lemma ConvertSystem(w: bv32)
    requires w & 0x3 == 3 && w & 0x7F == 0x73
    ensures Convert(w) == System(w)
  {
    hide System;
  }
}
