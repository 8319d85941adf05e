/**
  A compressed instruction is decided by its low sixteen bits: neither conversion nor decoding depends on
  the bytes that follow it.
 */
module Halfwords {
  import opened Wrappers
  import opened Words
  import opened Formats
  import opened Embive
  import opened Converter
  import Meaning

  lemma RiscvQuadrant0(w: bv32)
    ensures TypeCIW.FromRiscv(w) == TypeCIW.FromRiscv(w & 0xFFFF)
    ensures TypeCL.FromRiscv(w) == TypeCL.FromRiscv(w & 0xFFFF)
  {
  }

  lemma RiscvQuadrant1(w: bv32)
    ensures TypeCI1.FromRiscv(w) == TypeCI1.FromRiscv(w & 0xFFFF)
    ensures TypeCI2.FromRiscv(w) == TypeCI2.FromRiscv(w & 0xFFFF)
    ensures TypeCI3.FromRiscv(w) == TypeCI3.FromRiscv(w & 0xFFFF)
    ensures TypeCJ.FromRiscv(w) == TypeCJ.FromRiscv(w & 0xFFFF)
  {
  }

  lemma RiscvQuadrant1Alu(w: bv32)
    ensures TypeCB1.FromRiscv(w) == TypeCB1.FromRiscv(w & 0xFFFF)
    ensures TypeCB2.FromRiscv(w) == TypeCB2.FromRiscv(w & 0xFFFF)
    ensures TypeCB4.FromRiscv(w) == TypeCB4.FromRiscv(w & 0xFFFF)
    ensures TypeCS.FromRiscv(w) == TypeCS.FromRiscv(w & 0xFFFF)
  {
  }

  lemma RiscvQuadrant2(w: bv32)
    ensures TypeCI4.FromRiscv(w) == TypeCI4.FromRiscv(w & 0xFFFF)
    ensures TypeCI5.FromRiscv(w) == TypeCI5.FromRiscv(w & 0xFFFF)
    ensures TypeCR.FromRiscv(w) == TypeCR.FromRiscv(w & 0xFFFF)
    ensures TypeCSS.FromRiscv(w) == TypeCSS.FromRiscv(w & 0xFFFF)
  {
  }

  lemma Selectors(w: bv32)
    ensures w & 0x3 == (w & 0xFFFF) & 0x3 && w & 0xFFFF == (w & 0xFFFF) & 0xFFFF
    ensures CFunct3(w) == CFunct3(w & 0xFFFF) && CBit12(w) == CBit12(w & 0xFFFF)
    ensures CBits11To10(w) == CBits11To10(w & 0xFFFF) && CBits6To5(w) == CBits6To5(w & 0xFFFF)
  {
  }

  lemma C0Same(w: bv32, v: bv32)
    requires CFunct3(w) == CFunct3(v) && RefusedHalf(w) == RefusedHalf(v)
    requires TypeCIW.FromRiscv(w) == TypeCIW.FromRiscv(v) && TypeCL.FromRiscv(w) == TypeCL.FromRiscv(v)
    ensures C0(w) == C0(v)
  {
    hide TypeCIW.FromRiscv, TypeCL.FromRiscv, TypeCIW.ToEmbive, TypeCL.ToEmbive, CFunct3, Half, RefusedHalf;
  }

  lemma C1AluSame(w: bv32, v: bv32)
    requires CBits11To10(w) == CBits11To10(v) && CBit12(w) == CBit12(v) && CBits6To5(w) == CBits6To5(v)
    requires RefusedHalf(w) == RefusedHalf(v)
    requires TypeCB1.FromRiscv(w) == TypeCB1.FromRiscv(v) && TypeCB2.FromRiscv(w) == TypeCB2.FromRiscv(v)
    requires TypeCS.FromRiscv(w) == TypeCS.FromRiscv(v)
    ensures C1Alu(w) == C1Alu(v)
  {
    hide TypeCB1.FromRiscv, TypeCB2.FromRiscv, TypeCS.FromRiscv, TypeCB1.ToEmbive, TypeCB2.ToEmbive,
      TypeCS.ToEmbive, CBit12, CBits11To10, CBits6To5, Half, RefusedHalf;
  }

  lemma C1Same(w: bv32, v: bv32)
    requires CFunct3(w) == CFunct3(v) && RefusedHalf(w) == RefusedHalf(v)
    requires TypeCI1.FromRiscv(w) == TypeCI1.FromRiscv(v) && TypeCI2.FromRiscv(w) == TypeCI2.FromRiscv(v)
    requires TypeCI3.FromRiscv(w) == TypeCI3.FromRiscv(v) && TypeCJ.FromRiscv(w) == TypeCJ.FromRiscv(v)
    requires TypeCB4.FromRiscv(w) == TypeCB4.FromRiscv(v) && C1Alu(w) == C1Alu(v)
    ensures C1(w) == C1(v)
  {
    hide TypeCI1.FromRiscv, TypeCI2.FromRiscv, TypeCI3.FromRiscv, TypeCJ.FromRiscv, TypeCB4.FromRiscv,
      TypeCI1.ToEmbive, TypeCI2.ToEmbive, TypeCI3.ToEmbive, TypeCJ.ToEmbive, TypeCB4.ToEmbive, CFunct3, C1Alu,
      Half, RefusedHalf;
  }

  lemma C2Same(w: bv32, v: bv32)
    requires CFunct3(w) == CFunct3(v) && CBit12(w) == CBit12(v) && RefusedHalf(w) == RefusedHalf(v)
    requires TypeCI4.FromRiscv(w) == TypeCI4.FromRiscv(v) && TypeCI5.FromRiscv(w) == TypeCI5.FromRiscv(v)
    requires TypeCR.FromRiscv(w) == TypeCR.FromRiscv(v) && TypeCSS.FromRiscv(w) == TypeCSS.FromRiscv(v)
    ensures C2(w) == C2(v)
  {
    hide TypeCI4.FromRiscv, TypeCI5.FromRiscv, TypeCR.FromRiscv, TypeCSS.FromRiscv, TypeCI4.ToEmbive,
      TypeCI5.ToEmbive, TypeCR.ToEmbive, TypeCSS.ToEmbive, CFunct3, CBit12, Half, RefusedHalf;
  }

  /** Conversion of a compressed instruction, errors included, ignores the high half of the word. */
  lemma ConvertHalf(w: bv32)
    requires w & 0x3 != 3
    ensures Convert(w) == Convert(w & 0xFFFF)
  {
    hide C0, C1, C2, Uncompressed;
    ghost var v := w & 0xFFFF;
    Selectors(w);
    RiscvQuadrant0(w);
    C0Same(w, v);
    RiscvQuadrant1(w);
    RiscvQuadrant1Alu(w);
    C1AluSame(w, v);
    C1Same(w, v);
    RiscvQuadrant2(w);
    C2Same(w, v);
    Meaning.LowTwoBits(w);
  }

  lemma EmbiveLow(w: bv32)
    ensures TypeCIW.FromEmbive(w) == TypeCIW.FromEmbive(w & 0xFFFF)
    ensures TypeCL.FromEmbive(w) == TypeCL.FromEmbive(w & 0xFFFF)
    ensures TypeCI1.FromEmbive(w) == TypeCI1.FromEmbive(w & 0xFFFF)
    ensures TypeCI2.FromEmbive(w) == TypeCI2.FromEmbive(w & 0xFFFF)
  {
  }

  lemma EmbiveMiddle(w: bv32)
    ensures TypeCI3.FromEmbive(w) == TypeCI3.FromEmbive(w & 0xFFFF)
    ensures TypeCJ.FromEmbive(w) == TypeCJ.FromEmbive(w & 0xFFFF)
    ensures TypeCB1.FromEmbive(w) == TypeCB1.FromEmbive(w & 0xFFFF)
    ensures TypeCB2.FromEmbive(w) == TypeCB2.FromEmbive(w & 0xFFFF)
    ensures TypeCB4.FromEmbive(w) == TypeCB4.FromEmbive(w & 0xFFFF)
  {
  }

  lemma EmbiveHigh(w: bv32)
    ensures TypeCS.FromEmbive(w) == TypeCS.FromEmbive(w & 0xFFFF)
    ensures TypeCI4.FromEmbive(w) == TypeCI4.FromEmbive(w & 0xFFFF)
    ensures TypeCI5.FromEmbive(w) == TypeCI5.FromEmbive(w & 0xFFFF)
    ensures TypeCR.FromEmbive(w) == TypeCR.FromEmbive(w & 0xFFFF)
    ensures TypeCSS.FromEmbive(w) == TypeCSS.FromEmbive(w & 0xFFFF)
  {
  }

  lemma OpcodeBits(w: bv32)
    ensures Opcode(w) == Opcode(w & 0xFFFF)
  {
  }

  /** Decoding a half-size Embive instruction ignores the high half of the word. */
  lemma DecodeHalf(w: bv32)
    requires Opcode(w) <= C_SWSP
    ensures Decode(w) == Decode(w & 0xFFFF)
  {
    hide TypeCIW.FromEmbive, TypeCL.FromEmbive, TypeCI1.FromEmbive, TypeCI2.FromEmbive, TypeCI3.FromEmbive,
      TypeCJ.FromEmbive, TypeCB1.FromEmbive, TypeCB2.FromEmbive, TypeCB4.FromEmbive, TypeCS.FromEmbive,
      TypeCI4.FromEmbive, TypeCI5.FromEmbive, TypeCR.FromEmbive, TypeCSS.FromEmbive, TypeU.FromEmbive,
      TypeB.FromEmbive, TypeJ.FromEmbive, TypeI.FromEmbive, TypeR.FromEmbive;
    OpcodeBits(w);
    EmbiveLow(w);
    EmbiveMiddle(w);
    EmbiveHigh(w);
  }
}
