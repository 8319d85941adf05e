/**
  Instruction formats (src/format.rs).

  Each format reads its fields from a RISC-V word, reads them from an Embive word, and writes them to
  an Embive word.  Fields have the widths of the Rust structs: `bv8` and `bv16` for `u8` and `u16`,
  `bv32` for the bits of an `i32`.  `Encodable` says which field values fit the Embive layout; the
  `RoundTrip` lemmas show that it is exactly the condition for a word to decode to what was encoded.
 */
module Formats {
  import opened Words

  const COMPRESSED_REGISTER_OFFSET: bv8 := 8

  datatype Size = HalfSize | WordSize {
    function Bytes(): nat { if HalfSize? then 2 else 4 }
  }

  /** A 5-bit field, and a 3-bit register field that stands for x8 to x15. */
  function Field5(w: bv32): bv8 { (w & 0x1F) as bv8 }

  function Field3(w: bv32): bv8 { (w & 0x7) as bv8 }

  function CompressedRegister(w: bv32): bv8 { Field3(w) + COMPRESSED_REGISTER_OFFSET }

  /** The bits of `imm` under `sign` are equal, and those under `zero` are clear. */
  predicate SignCopies(imm: bv32, sign: bv32, zero: bv32) {
    imm & (sign | zero) == 0 || imm & (sign | zero) == sign
  }

  predicate IsCompressedRegister(r: bv8) { 8 <= r < 16 }

  datatype TypeR = TypeR(rd: bv8, rs1: bv8, rs2: bv8, func: bv16) {
    static function FromRiscv(inst: bv32): TypeR {
      TypeR(Field5(inst >> 7), Field5(inst >> 15), Field5(inst >> 20),
            (((inst >> 22) & 0x3F8) | ((inst >> 12) & 0x7)) as bv16)
    }

    static function FromEmbive(inst: bv32): TypeR {
      TypeR(Field5(inst >> 17), Field5(inst >> 22), Field5(inst >> 27), ((inst >> 7) & 0x3FF) as bv16)
    }

    function ToEmbive(): bv32 {
      (rd as bv32 << 17) | (rs1 as bv32 << 22) | (rs2 as bv32 << 27) | (func as bv32 << 7)
    }

    predicate Encodable() { rd < 32 && rs1 < 32 && rs2 < 32 && func < 0x400 }

    /** Every RISC-V word has encodable fields. */
    static lemma Fits(inst: bv32)
      ensures FromRiscv(inst).Encodable()
    {
    }

    lemma RoundTrip(op: bv32)
      requires op < 32
      ensures FromEmbive(ToEmbive() | op) == this <==> Encodable()
      ensures Encodable() ==> (ToEmbive() | op) & 0x1F == op
    {
    }
  }

  datatype TypeI = TypeI(rdRs2: bv8, rs1: bv8, imm: bv32, func: bv8) {
    static function FromRiscv(inst: bv32): TypeI {
      TypeI(Field5(inst >> 7), Field5(inst >> 15), Sar(inst & 0xFFF0_0000, 20), Field3(inst >> 12))
    }

    static function FromEmbive(inst: bv32): TypeI {
      TypeI(Field5(inst >> 10), Field5(inst >> 15), Sar(inst & 0xFFF0_0000, 20), Field3(inst >> 7))
    }

    function ToEmbive(): bv32 {
      (rdRs2 as bv32 << 10) | (func as bv32 << 7) | (rs1 as bv32 << 15) | ((imm & 0xFFF) << 20)
    }

    predicate Encodable() { rdRs2 < 32 && rs1 < 32 && SignCopies(imm, 0xFFFF_F800, 0) && func < 8 }

    static lemma Fits(inst: bv32)
      ensures FromRiscv(inst).Encodable()
    {
    }

    lemma KeptPositive()
      requires imm & 0xFFFF_F800 == 0
      ensures Sar(imm << 20, 20) == imm
    {
    }

    lemma KeptNegative()
      requires imm & 0xFFFF_F800 == 0xFFFF_F800
      ensures Sar(imm << 20, 20) == imm
    {
    }

    lemma KeptImmediate()
      requires Encodable()
      ensures Sar(imm << 20, 20) == imm
    {
      if imm & 0xFFFF_F800 == 0 {
        KeptPositive();
      } else {
        KeptNegative();
      }
    }

    lemma Field(op: bv32)
      requires op < 32 && Encodable()
      ensures (ToEmbive() | op) & 0xFFF0_0000 == imm << 20
    {
    }

    lemma Kept(op: bv32)
      requires op < 32 && Encodable()
      ensures FromEmbive(ToEmbive() | op) == this
    {
      KeptImmediate();
      Field(op);
    }

    lemma RoundTrip(op: bv32)
      requires op < 32
      ensures FromEmbive(ToEmbive() | op) == this <==> Encodable()
      ensures Encodable() ==> (ToEmbive() | op) & 0x1F == op
    {
      if Encodable() {
        Kept(op);
      }
    }
  }

  /** No Embive instruction has this format: stores are re-encoded as `TypeI`, which lays out the same bits. */
  datatype TypeS = TypeS(rs1: bv8, rs2: bv8, imm: bv32, func: bv8) {
    static function FromRiscv(inst: bv32): TypeS {
      TypeS(Field5(inst >> 15), Field5(inst >> 20),
            Sar((inst & 0xFE00_0000) | ((inst & 0xF80) << 13), 20), Field3(inst >> 12))
    }

    static function FromEmbive(inst: bv32): TypeS {
      TypeS(Field5(inst >> 15), Field5(inst >> 10), Sar(inst & 0xFFF0_0000, 20), Field3(inst >> 7))
    }

    function ToEmbive(): bv32 {
      (imm << 20) | (func as bv32 << 7) | (rs2 as bv32 << 10) | (rs1 as bv32 << 15)
    }

    function AsTypeI(): TypeI { TypeI(rs2, rs1, imm, func) }

    predicate Encodable() { AsTypeI().Encodable() }

    static lemma Fits(inst: bv32)
      ensures FromRiscv(inst).Encodable()
    {
    }

    lemma SameLayout(inst: bv32)
      ensures ToEmbive() == AsTypeI().ToEmbive()
      ensures FromEmbive(inst).AsTypeI() == TypeI.FromEmbive(inst)
    {
    }

    static lemma Reads(inst: bv32)
      ensures FromEmbive(inst).Encodable()
    {
    }

    lemma Field(op: bv32)
      requires op < 32 && Encodable()
      ensures (ToEmbive() | op) & 0xFFF0_0000 == imm << 20
    {
    }

    lemma Kept(op: bv32)
      requires op < 32 && Encodable()
      ensures FromEmbive(ToEmbive() | op) == this
    {
      AsTypeI().KeptImmediate();
      Field(op);
    }

    lemma Opcode(op: bv32)
      requires op < 32 && Encodable()
      ensures (ToEmbive() | op) & 0x1F == op
    {
    }

    lemma RoundTrip(op: bv32)
      requires op < 32
      ensures FromEmbive(ToEmbive() | op) == this <==> Encodable()
      ensures Encodable() ==> (ToEmbive() | op) & 0x1F == op
    {
      hide FromEmbive, ToEmbive, Encodable;
      if Encodable() {
        Opcode(op);
        Kept(op);
      } else {
        Reads(ToEmbive() | op);
      }
    }
  }

  datatype TypeB = TypeB(rs1: bv8, rs2: bv8, imm: bv32, func: bv8) {
    static function FromRiscv(inst: bv32): TypeB {
      TypeB(Field5(inst >> 15), Field5(inst >> 20),
            Sar((inst & 0x8000_0000) | ((inst & 0x80) << 23)
                | ((inst & 0x7E00_0000) >> 1) | ((inst & 0xF00) << 12), 19),
            Field3(inst >> 12))
    }

    static function FromEmbive(inst: bv32): TypeB {
      TypeB(Field5(inst >> 10), Field5(inst >> 15), Sar(inst & 0xFFF0_0000, 19), Field3(inst >> 7))
    }

    function ToEmbive(): bv32 {
      (imm << 19) | (func as bv32 << 7) | (rs1 as bv32 << 10) | (rs2 as bv32 << 15)
    }

    predicate Encodable() { rs1 < 32 && rs2 < 32 && SignCopies(imm, 0xFFFF_F000, 0x1) && func < 8 }

    static lemma Fits(inst: bv32)
      ensures FromRiscv(inst).Encodable()
    {
    }

    lemma KeptPositive()
      requires imm & 0xFFFF_F001 == 0
      ensures Sar(imm << 19, 19) == imm
    {
    }

    lemma KeptNegative()
      requires imm & 0xFFFF_F001 == 0xFFFF_F000
      ensures Sar(imm << 19, 19) == imm
    {
    }

    lemma KeptImmediate()
      requires Encodable()
      ensures Sar(imm << 19, 19) == imm
    {
      if imm & 0xFFFF_F001 == 0 {
        KeptPositive();
      } else {
        KeptNegative();
      }
    }

    lemma Field(op: bv32)
      requires op < 32 && Encodable()
      ensures (ToEmbive() | op) & 0xFFF0_0000 == imm << 19
    {
    }

    lemma Kept(op: bv32)
      requires op < 32 && Encodable()
      ensures FromEmbive(ToEmbive() | op) == this
    {
      KeptImmediate();
      Field(op);
    }

    lemma RoundTrip(op: bv32)
      requires op < 32
      ensures FromEmbive(ToEmbive() | op) == this <==> Encodable()
      ensures Encodable() ==> (ToEmbive() | op) & 0x1F == op
    {
      if Encodable() {
        Kept(op);
      }
    }
  }

  datatype TypeU = TypeU(rd: bv8, imm: bv32) {
    static function FromRiscv(inst: bv32): TypeU {
      TypeU(Field5(inst >> 7), inst & 0xFFFF_F000)
    }

    static function FromEmbive(inst: bv32): TypeU {
      FromRiscv(inst)
    }

    function ToEmbive(): bv32 {
      (rd as bv32 << 7) | (imm & 0xFFFF_F000)
    }

    predicate Encodable() { rd < 32 && imm & 0xFFF == 0 }

    static lemma Fits(inst: bv32)
      ensures FromRiscv(inst).Encodable()
    {
    }

    lemma RoundTrip(op: bv32)
      requires op < 32
      ensures FromEmbive(ToEmbive() | op) == this <==> Encodable()
      ensures Encodable() ==> (ToEmbive() | op) & 0x1F == op
    {
    }
  }

  datatype TypeJ = TypeJ(rd: bv8, imm: bv32) {
    static function FromRiscv(inst: bv32): TypeJ {
      TypeJ(Field5(inst >> 7),
            Sar((inst & 0x8000_0000) | ((inst & 0xF_F000) << 11)
                | ((inst & 0x10_0000) << 2) | ((inst & 0x7FE0_0000) >> 9), 11))
    }

    static function FromEmbive(inst: bv32): TypeJ {
      TypeJ(Field5(inst >> 7), Sar(inst & 0xFFFF_F000, 11))
    }

    function ToEmbive(): bv32 {
      (rd as bv32 << 7) | (imm << 11)
    }

    predicate Encodable() { rd < 32 && SignCopies(imm, 0xFFF0_0000, 0x1) }

    static lemma Fits(inst: bv32)
      ensures FromRiscv(inst).Encodable()
    {
    }

    lemma KeptPositive()
      requires imm & 0xFFF0_0001 == 0
      ensures Sar(imm << 11, 11) == imm
    {
    }

    lemma KeptNegative()
      requires imm & 0xFFF0_0001 == 0xFFF0_0000
      ensures Sar(imm << 11, 11) == imm
    {
    }

    lemma KeptImmediate()
      requires Encodable()
      ensures Sar(imm << 11, 11) == imm
    {
      if imm & 0xFFF0_0001 == 0 {
        KeptPositive();
      } else {
        KeptNegative();
      }
    }

    lemma Field(op: bv32)
      requires op < 32 && Encodable()
      ensures (ToEmbive() | op) & 0xFFFF_F000 == imm << 11
    {
    }

    lemma Kept(op: bv32)
      requires op < 32 && Encodable()
      ensures FromEmbive(ToEmbive() | op) == this
    {
      KeptImmediate();
      Field(op);
    }

    lemma RoundTrip(op: bv32)
      requires op < 32
      ensures FromEmbive(ToEmbive() | op) == this <==> Encodable()
      ensures Encodable() ==> (ToEmbive() | op) & 0x1F == op
    {
      if Encodable() {
        Kept(op);
      }
    }
  }

  datatype TypeCIW = TypeCIW(rd: bv8, imm: bv32) {
    static function FromRiscv(inst: bv32): TypeCIW {
      TypeCIW(CompressedRegister(inst >> 2),
              ((inst & 0x40) >> 4) | ((inst & 0x20) >> 2) | ((inst & 0x1800) >> 7) | ((inst & 0x780) >> 1))
    }

    static function FromEmbive(inst: bv32): TypeCIW {
      TypeCIW(CompressedRegister(inst >> 5), (inst & 0xFF00) >> 6)
    }

    function ToEmbive(): bv32 {
      ((rd - COMPRESSED_REGISTER_OFFSET) as bv32 << 5) | ((imm << 6) & 0xFF00)
    }

    predicate Encodable() { IsCompressedRegister(rd) && imm & 0x3FC == imm }

    static lemma Fits(inst: bv32)
      ensures FromRiscv(inst).Encodable()
    {
    }

    static lemma Reads(inst: bv32)
      ensures FromEmbive(inst).Encodable()
    {
    }

    lemma Opcode(op: bv32)
      requires op < 32 && Encodable()
      ensures (ToEmbive() | op) & 0x1F == op && ToEmbive() | op < 0x1_0000
    {
    }

    lemma Kept(op: bv32)
      requires op < 32 && Encodable()
      ensures FromEmbive(ToEmbive() | op) == this
    {
    }

    lemma RoundTrip(op: bv32)
      requires op < 32
      ensures FromEmbive(ToEmbive() | op) == this <==> Encodable()
      ensures Encodable() ==> (ToEmbive() | op) & 0x1F == op && ToEmbive() | op < 0x1_0000
    {
      hide FromEmbive, ToEmbive, Encodable;
      if Encodable() {
        Opcode(op);
        Kept(op);
      } else {
        Reads(ToEmbive() | op);
      }
    }
  }

  datatype TypeCL = TypeCL(rdRs2: bv8, rs1: bv8, imm: bv32) {
    static function FromRiscv(inst: bv32): TypeCL {
      TypeCL(CompressedRegister(inst >> 2), CompressedRegister(inst >> 7),
             ((inst & 0x20) << 1) | ((inst & 0x1C00) >> 7) | ((inst & 0x40) >> 4))
    }

    static function FromEmbive(inst: bv32): TypeCL {
      TypeCL(CompressedRegister(inst >> 5), CompressedRegister(inst >> 8), (inst & 0xF800) >> 9)
    }

    function ToEmbive(): bv32 {
      ((rdRs2 - COMPRESSED_REGISTER_OFFSET) as bv32 << 5)
      | ((rs1 - COMPRESSED_REGISTER_OFFSET) as bv32 << 8) | (imm << 9)
    }

    predicate Encodable() { IsCompressedRegister(rdRs2) && IsCompressedRegister(rs1) && imm & 0x7C == imm }

    static lemma Fits(inst: bv32)
      ensures FromRiscv(inst).Encodable()
    {
    }

    static lemma Reads(inst: bv32)
      ensures FromEmbive(inst).Encodable()
    {
    }

    lemma Opcode(op: bv32)
      requires op < 32 && Encodable()
      ensures (ToEmbive() | op) & 0x1F == op && ToEmbive() | op < 0x1_0000
    {
    }

    lemma Kept(op: bv32)
      requires op < 32 && Encodable()
      ensures FromEmbive(ToEmbive() | op) == this
    {
    }

    lemma RoundTrip(op: bv32)
      requires op < 32
      ensures FromEmbive(ToEmbive() | op) == this <==> Encodable()
      ensures Encodable() ==> (ToEmbive() | op) & 0x1F == op && ToEmbive() | op < 0x1_0000
    {
      hide FromEmbive, ToEmbive, Encodable;
      if Encodable() {
        Opcode(op);
        Kept(op);
      } else {
        Reads(ToEmbive() | op);
      }
    }
  }

  /** Immediate bits 5 to 0, signed. */
  datatype TypeCI1 = TypeCI1(rdRs1: bv8, imm: bv32) {
    static function FromRiscv(inst: bv32): TypeCI1 {
      TypeCI1(Field5(inst >> 7), Sar(AsI8((inst & 0x7C) | ((inst & 0x1000) >> 5)), 2))
    }

    static function FromEmbive(inst: bv32): TypeCI1 {
      TypeCI1(Field5(inst >> 5), Sar(AsI16(inst & 0xFC00), 10))
    }

    function ToEmbive(): bv32 {
      (rdRs1 as bv32 << 5) | ((imm << 10) & 0xFC00)
    }

    predicate Encodable() { rdRs1 < 32 && SignCopies(imm, 0xFFFF_FFE0, 0) }

    static lemma Fits(inst: bv32)
      ensures FromRiscv(inst).Encodable()
    {
    }

    lemma Kept(op: bv32)
      requires op < 32 && Encodable()
      ensures FromEmbive(ToEmbive() | op) == this
    {
    }

    lemma RoundTrip(op: bv32)
      requires op < 32
      ensures FromEmbive(ToEmbive() | op) == this <==> Encodable()
      ensures Encodable() ==> (ToEmbive() | op) & 0x1F == op && ToEmbive() | op < 0x1_0000
    {
      if Encodable() {
        Kept(op);
      }
    }
  }

  /** Immediate bits 9 to 4, signed. */
  datatype TypeCI2 = TypeCI2(rdRs1: bv8, imm: bv32) {
    static function FromRiscv(inst: bv32): TypeCI2 {
      TypeCI2(Field5(inst >> 7),
              AsI8(((inst & 0x1000) >> 5) | ((inst & 0x18) << 2) | ((inst & 0x20) >> 1)
                   | ((inst & 0x4) << 1) | ((inst & 0x40) >> 4)) << 2)
    }

    static function FromEmbive(inst: bv32): TypeCI2 {
      TypeCI2(Field5(inst >> 5), Sar(AsI16(inst & 0xFC00), 6))
    }

    function ToEmbive(): bv32 {
      (rdRs1 as bv32 << 5) | ((imm << 6) & 0xFC00)
    }

    predicate Encodable() { rdRs1 < 32 && SignCopies(imm, 0xFFFF_FE00, 0xF) }

    static lemma Fits(inst: bv32)
      ensures FromRiscv(inst).Encodable()
    {
    }

    lemma Kept(op: bv32)
      requires op < 32 && Encodable()
      ensures FromEmbive(ToEmbive() | op) == this
    {
    }

    lemma RoundTrip(op: bv32)
      requires op < 32
      ensures FromEmbive(ToEmbive() | op) == this <==> Encodable()
      ensures Encodable() ==> (ToEmbive() | op) & 0x1F == op && ToEmbive() | op < 0x1_0000
    {
      if Encodable() {
        Kept(op);
      }
    }
  }

  /** Immediate bits 17 to 12, signed. */
  datatype TypeCI3 = TypeCI3(rdRs1: bv8, imm: bv32) {
    static function FromRiscv(inst: bv32): TypeCI3 {
      TypeCI3(Field5(inst >> 7), AsI8((inst & 0x7C) | ((inst & 0x1000) >> 5)) << 10)
    }

    static function FromEmbive(inst: bv32): TypeCI3 {
      TypeCI3(Field5(inst >> 5), AsI16(inst & 0xFC00) << 2)
    }

    function ToEmbive(): bv32 {
      (rdRs1 as bv32 << 5) | ((imm >> 2) & 0xFC00)
    }

    predicate Encodable() { rdRs1 < 32 && SignCopies(imm, 0xFFFE_0000, 0xFFF) }

    static lemma Fits(inst: bv32)
      ensures FromRiscv(inst).Encodable()
    {
    }

    lemma Kept(op: bv32)
      requires op < 32 && Encodable()
      ensures FromEmbive(ToEmbive() | op) == this
    {
    }

    lemma RoundTrip(op: bv32)
      requires op < 32
      ensures FromEmbive(ToEmbive() | op) == this <==> Encodable()
      ensures Encodable() ==> (ToEmbive() | op) & 0x1F == op && ToEmbive() | op < 0x1_0000
    {
      if Encodable() {
        Kept(op);
      }
    }
  }

  /** Immediate bits 5 to 0, unsigned. */
  datatype TypeCI4 = TypeCI4(rdRs1: bv8, imm: bv32) {
    static function FromRiscv(inst: bv32): TypeCI4 {
      TypeCI4(Field5(inst >> 7), ((inst & 0x7C) | ((inst & 0x1000) >> 5)) >> 2)
    }

    static function FromEmbive(inst: bv32): TypeCI4 {
      TypeCI4(Field5(inst >> 5), (inst & 0xFC00) >> 10)
    }

    function ToEmbive(): bv32 {
      (rdRs1 as bv32 << 5) | (imm << 10)
    }

    predicate Encodable() { rdRs1 < 32 && imm < 64 }

    static lemma Fits(inst: bv32)
      ensures FromRiscv(inst).Encodable()
    {
    }

    lemma RoundTrip(op: bv32)
      requires op < 32
      ensures FromEmbive(ToEmbive() | op) == this <==> Encodable()
      ensures Encodable() ==> (ToEmbive() | op) & 0x1F == op && ToEmbive() | op < 0x1_0000
    {
    }
  }

  /** Immediate bits 7 to 2, unsigned. */
  datatype TypeCI5 = TypeCI5(rdRs1: bv8, imm: bv32) {
    static function FromRiscv(inst: bv32): TypeCI5 {
      TypeCI5(Field5(inst >> 7), Sar(((inst & 0xC) << 11) | (inst & 0x1000) | ((inst & 0x70) << 5), 7))
    }

    static function FromEmbive(inst: bv32): TypeCI5 {
      TypeCI5(Field5(inst >> 5), (inst & 0xFC00) >> 8)
    }

    function ToEmbive(): bv32 {
      (rdRs1 as bv32 << 5) | (imm << 8)
    }

    predicate Encodable() { rdRs1 < 32 && imm & 0xFC == imm }

    static lemma Fits(inst: bv32)
      ensures FromRiscv(inst).Encodable()
    {
    }

    static lemma Reads(inst: bv32)
      ensures FromEmbive(inst).Encodable()
    {
    }

    lemma Opcode(op: bv32)
      requires op < 32 && Encodable()
      ensures (ToEmbive() | op) & 0x1F == op && ToEmbive() | op < 0x1_0000
    {
    }

    lemma Kept(op: bv32)
      requires op < 32 && Encodable()
      ensures FromEmbive(ToEmbive() | op) == this
    {
    }

    lemma RoundTrip(op: bv32)
      requires op < 32
      ensures FromEmbive(ToEmbive() | op) == this <==> Encodable()
      ensures Encodable() ==> (ToEmbive() | op) & 0x1F == op && ToEmbive() | op < 0x1_0000
    {
      hide FromEmbive, ToEmbive, Encodable;
      if Encodable() {
        Opcode(op);
        Kept(op);
      } else {
        Reads(ToEmbive() | op);
      }
    }
  }

  /** Immediate bits 5 to 0, unsigned. */
  datatype TypeCB1 = TypeCB1(rdRs1: bv8, imm: bv32) {
    static function FromRiscv(inst: bv32): TypeCB1 {
      TypeCB1(CompressedRegister(inst >> 7), ((inst & 0x7C) | ((inst & 0x1000) >> 5)) >> 2)
    }

    static function FromEmbive(inst: bv32): TypeCB1 {
      TypeCB1(Field5(inst >> 5), (inst & 0xFC00) >> 10)
    }

    function ToEmbive(): bv32 {
      (rdRs1 as bv32 << 5) | (imm << 10)
    }

    predicate Encodable() { rdRs1 < 32 && imm < 64 }

    static lemma Fits(inst: bv32)
      ensures FromRiscv(inst).Encodable()
    {
    }

    lemma RoundTrip(op: bv32)
      requires op < 32
      ensures FromEmbive(ToEmbive() | op) == this <==> Encodable()
      ensures Encodable() ==> (ToEmbive() | op) & 0x1F == op && ToEmbive() | op < 0x1_0000
    {
    }
  }

  /** Immediate bits 5 to 0, signed. */
  datatype TypeCB2 = TypeCB2(rdRs1: bv8, imm: bv32) {
    static function FromRiscv(inst: bv32): TypeCB2 {
      TypeCB2(CompressedRegister(inst >> 7), Sar(AsI8((inst & 0x7C) | ((inst & 0x1000) >> 5)), 2))
    }

    static function FromEmbive(inst: bv32): TypeCB2 {
      TypeCB2(Field5(inst >> 5), Sar(AsI16(inst & 0xFC00), 10))
    }

    function ToEmbive(): bv32 {
      (rdRs1 as bv32 << 5) | ((imm << 10) & 0xFC00)
    }

    predicate Encodable() { rdRs1 < 32 && SignCopies(imm, 0xFFFF_FFE0, 0) }

    static lemma Fits(inst: bv32)
      ensures FromRiscv(inst).Encodable()
    {
    }

    lemma Kept(op: bv32)
      requires op < 32 && Encodable()
      ensures FromEmbive(ToEmbive() | op) == this
    {
    }

    lemma RoundTrip(op: bv32)
      requires op < 32
      ensures FromEmbive(ToEmbive() | op) == this <==> Encodable()
      ensures Encodable() ==> (ToEmbive() | op) & 0x1F == op && ToEmbive() | op < 0x1_0000
    {
      if Encodable() {
        Kept(op);
      }
    }
  }

  /** Immediate bits 8 to 1, signed. */
  datatype TypeCB4 = TypeCB4(rs1: bv8, imm: bv32) {
    static function FromRiscv(inst: bv32): TypeCB4 {
      TypeCB4(CompressedRegister(inst >> 7),
              AsI8(((inst & 0x1000) >> 5) | (inst & 0x60) | ((inst & 0x4) << 2)
                   | ((inst & 0xC00) >> 8) | ((inst & 0x18) >> 3)) << 1)
    }

    static function FromEmbive(inst: bv32): TypeCB4 {
      TypeCB4(CompressedRegister(inst >> 5), Sar(AsI16(inst & 0xFF00), 7))
    }

    function ToEmbive(): bv32 {
      ((rs1 - COMPRESSED_REGISTER_OFFSET) as bv32 << 5) | ((imm << 7) & 0xFF00)
    }

    predicate Encodable() { IsCompressedRegister(rs1) && SignCopies(imm, 0xFFFF_FF00, 0x1) }

    static lemma Fits(inst: bv32)
      ensures FromRiscv(inst).Encodable()
    {
    }

    lemma Kept(op: bv32)
      requires op < 32 && Encodable()
      ensures FromEmbive(ToEmbive() | op) == this
    {
    }

    lemma RoundTrip(op: bv32)
      requires op < 32
      ensures FromEmbive(ToEmbive() | op) == this <==> Encodable()
      ensures Encodable() ==> (ToEmbive() | op) & 0x1F == op && ToEmbive() | op < 0x1_0000
    {
      if Encodable() {
        Kept(op);
      }
    }
  }

  datatype TypeCR = TypeCR(rdRs1: bv8, rs2: bv8) {
    static function FromRiscv(inst: bv32): TypeCR {
      TypeCR(Field5(inst >> 7), Field5(inst >> 2))
    }

    static function FromEmbive(inst: bv32): TypeCR {
      TypeCR(Field5(inst >> 5), Field5(inst >> 10))
    }

    function ToEmbive(): bv32 {
      (rdRs1 as bv32 << 5) | (rs2 as bv32 << 10)
    }

    predicate Encodable() { rdRs1 < 32 && rs2 < 32 }

    static lemma Fits(inst: bv32)
      ensures FromRiscv(inst).Encodable()
    {
    }

    lemma RoundTrip(op: bv32)
      requires op < 32
      ensures FromEmbive(ToEmbive() | op) == this <==> Encodable()
      ensures Encodable() ==> (ToEmbive() | op) & 0x1F == op && ToEmbive() | op < 0x1_0000
    {
    }
  }

  datatype TypeCS = TypeCS(rdRs1: bv8, rs2: bv8) {
    static function FromRiscv(inst: bv32): TypeCS {
      TypeCS(CompressedRegister(inst >> 7), CompressedRegister(inst >> 2))
    }

    static function FromEmbive(inst: bv32): TypeCS {
      TypeCS(Field5(inst >> 5), Field5(inst >> 10))
    }

    function ToEmbive(): bv32 {
      (rdRs1 as bv32 << 5) | (rs2 as bv32 << 10)
    }

    predicate Encodable() { rdRs1 < 32 && rs2 < 32 }

    static lemma Fits(inst: bv32)
      ensures FromRiscv(inst).Encodable()
    {
    }

    lemma RoundTrip(op: bv32)
      requires op < 32
      ensures FromEmbive(ToEmbive() | op) == this <==> Encodable()
      ensures Encodable() ==> (ToEmbive() | op) & 0x1F == op && ToEmbive() | op < 0x1_0000
    {
    }
  }

  datatype TypeCSS = TypeCSS(rs2: bv8, imm: bv32) {
    static function FromRiscv(inst: bv32): TypeCSS {
      TypeCSS(Field5(inst >> 2), ((inst & 0x180) | ((inst & 0x1E00) >> 6)) >> 1)
    }

    static function FromEmbive(inst: bv32): TypeCSS {
      TypeCSS(Field5(inst >> 5), (inst & 0xFC00) >> 8)
    }

    function ToEmbive(): bv32 {
      (rs2 as bv32 << 5) | (imm << 8)
    }

    predicate Encodable() { rs2 < 32 && imm & 0xFC == imm }

    static lemma Fits(inst: bv32)
      ensures FromRiscv(inst).Encodable()
    {
    }

    static lemma Reads(inst: bv32)
      ensures FromEmbive(inst).Encodable()
    {
    }

    lemma Opcode(op: bv32)
      requires op < 32 && Encodable()
      ensures (ToEmbive() | op) & 0x1F == op && ToEmbive() | op < 0x1_0000
    {
    }

    lemma Kept(op: bv32)
      requires op < 32 && Encodable()
      ensures FromEmbive(ToEmbive() | op) == this
    {
    }

    lemma RoundTrip(op: bv32)
      requires op < 32
      ensures FromEmbive(ToEmbive() | op) == this <==> Encodable()
      ensures Encodable() ==> (ToEmbive() | op) & 0x1F == op && ToEmbive() | op < 0x1_0000
    {
      hide FromEmbive, ToEmbive, Encodable;
      if Encodable() {
        Opcode(op);
        Kept(op);
      } else {
        Reads(ToEmbive() | op);
      }
    }
  }

  datatype TypeCJ = TypeCJ(imm: bv32) {
    static function FromRiscv(inst: bv32): TypeCJ {
      TypeCJ(Sar(AsI16(((inst & 0x1000) << 3) | ((inst & 0x100) << 6) | ((inst & 0x600) << 3) | ((inst & 0x40) << 5)
                       | ((inst & 0x80) << 3) | ((inst & 0x4) << 7) | ((inst & 0x800) >> 3) | ((inst & 0x38) << 2)), 4))
    }

    static function FromEmbive(inst: bv32): TypeCJ {
      TypeCJ(Sar(AsI16(inst & 0xFFE0), 4))
    }

    function ToEmbive(): bv32 {
      (imm << 4) & 0xFFE0
    }

    predicate Encodable() { SignCopies(imm, 0xFFFF_F800, 0x1) }

    static lemma Fits(inst: bv32)
      ensures FromRiscv(inst).Encodable()
    {
    }

    lemma Opcode(op: bv32)
      requires op < 32
      ensures (ToEmbive() | op) & 0x1F == op && ToEmbive() | op < 0x1_0000 && (ToEmbive() | op) & 0xFFE0 == ToEmbive()
    {
    }

    lemma KeptPositive()
      requires imm & 0xFFFF_F801 == 0
      ensures Sar(AsI16(ToEmbive()), 4) == imm
    {
    }

    lemma KeptNegative()
      requires imm & 0xFFFF_F801 == 0xFFFF_F800
      ensures Sar(AsI16(ToEmbive()), 4) == imm
    {
    }

    lemma Kept()
      requires Encodable()
      ensures Sar(AsI16(ToEmbive()), 4) == imm
    {
      hide Sar, AsI16, ToEmbive;
      if imm & 0xFFFF_F801 == 0 {
        KeptPositive();
      } else {
        KeptNegative();
      }
    }

    lemma RoundTrip(op: bv32)
      requires op < 32
      ensures FromEmbive(ToEmbive() | op) == this <==> Encodable()
      ensures Encodable() ==> (ToEmbive() | op) & 0x1F == op && ToEmbive() | op < 0x1_0000
    {
      Opcode(op);
      if Encodable() {
        Kept();
      }
    }
  }
}
