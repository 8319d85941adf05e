/**
  The range and the alignment of every immediate: what the standard gives each format, as values of the
  fields that the conversion reads.
 */
module ImmediateRanges {
  import opened Words
  import opened Formats
  import opened Immediates
  import opened Riscv

  /** A multiple of `step` from `low` to `high`. */
  predicate Within(x: int, low: int, high: int, step: int)
    requires step > 0
  {
    low <= x <= high && x % step == 0
  }

  lemma IRange(w: bv32)
    ensures Within(Signed(TypeI.FromRiscv(w).imm), -2048, 2047, 1)
  {
    hide Bit, Signed, TypeI.FromRiscv;
    IValue(w);
  }

  lemma SRange(w: bv32)
    ensures Within(Signed(TypeS.FromRiscv(w).imm), -2048, 2047, 1)
  {
    hide Bit, Signed, TypeS.FromRiscv;
    SValue(w);
  }

  lemma BRange(w: bv32)
    ensures Within(Signed(TypeB.FromRiscv(w).imm), -4096, 4094, 2)
  {
    hide Bit, Signed, TypeB.FromRiscv;
    BValue(w);
  }

  lemma URange(w: bv32)
    ensures Within(Signed(TypeU.FromRiscv(w).imm), -0x80000000, 0x7FFFF000, 4096)
  {
    hide Bit, Signed, TypeU.FromRiscv;
    UValue(w);
  }

  lemma JRange(w: bv32)
    ensures Within(Signed(TypeJ.FromRiscv(w).imm), -0x100000, 0xFFFFE, 2)
  {
    hide Bit, Signed, TypeJ.FromRiscv;
    JValue(w);
  }

  lemma CIWRange(w: bv32)
    ensures Within(Signed(TypeCIW.FromRiscv(w).imm), 0, 1020, 4)
  {
    hide Bit, Signed, TypeCIW.FromRiscv;
    CIWValue(w);
  }

  lemma CLRange(w: bv32)
    ensures Within(Signed(TypeCL.FromRiscv(w).imm), 0, 124, 4)
  {
    hide Bit, Signed, TypeCL.FromRiscv;
    CLValue(w);
  }

  lemma CI1Range(w: bv32)
    ensures Within(Signed(TypeCI1.FromRiscv(w).imm), -32, 31, 1)
  {
    hide Bit, Signed, TypeCI1.FromRiscv;
    CI1Value(w);
  }

  lemma CI2Range(w: bv32)
    ensures Within(Signed(TypeCI2.FromRiscv(w).imm), -512, 496, 16)
  {
    hide Bit, Signed, TypeCI2.FromRiscv;
    CI2Value(w);
  }

  lemma CI3Range(w: bv32)
    ensures Within(Signed(TypeCI3.FromRiscv(w).imm), -0x20000, 0x1F000, 4096)
  {
    hide Bit, Signed, TypeCI3.FromRiscv;
    CI3Value(w);
  }

  lemma CI4Range(w: bv32)
    ensures Within(Signed(TypeCI4.FromRiscv(w).imm), 0, 63, 1)
  {
    hide Bit, Signed, TypeCI4.FromRiscv;
    CI4Value(w);
  }

  lemma CI5Range(w: bv32)
    ensures Within(Signed(TypeCI5.FromRiscv(w).imm), 0, 252, 4)
  {
    hide Bit, Signed, TypeCI5.FromRiscv;
    CI5Value(w);
  }

  lemma CB1Range(w: bv32)
    ensures Within(Signed(TypeCB1.FromRiscv(w).imm), 0, 63, 1)
  {
    hide Bit, Signed, TypeCB1.FromRiscv;
    CB1Value(w);
  }

  lemma CB2Range(w: bv32)
    ensures Within(Signed(TypeCB2.FromRiscv(w).imm), -32, 31, 1)
  {
    hide Bit, Signed, TypeCB2.FromRiscv;
    CB2Value(w);
  }

  lemma CB4Range(w: bv32)
    ensures Within(Signed(TypeCB4.FromRiscv(w).imm), -256, 254, 2)
  {
    hide Bit, Signed, TypeCB4.FromRiscv;
    CB4Value(w);
  }

  lemma CSSRange(w: bv32)
    ensures Within(Signed(TypeCSS.FromRiscv(w).imm), 0, 252, 4)
  {
    hide Bit, Signed, TypeCSS.FromRiscv;
    CSSValue(w);
  }

  lemma CJRange(w: bv32)
    ensures Within(Signed(TypeCJ.FromRiscv(w).imm), -2048, 2046, 2)
  {
    hide Bit, Signed, TypeCJ.FromRiscv;
    CJValue(w);
  }
}
