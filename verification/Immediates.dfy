/**
  Every immediate that a format reads from a RISC-V word has the value that the standard gives it.

  The `Bits` and `Octet` lemmas match the code's shifts and masks with instruction bits, one byte of
  the immediate at a time; the `Value` lemmas add the bytes up.
 */
module Immediates {
  import opened Words
  import opened Formats
  import opened Riscv

  lemma IBits0(w: bv32, b: bv32)
    requires b == TypeI.FromRiscv(w).imm
    ensures Bit(b, 0) == Bit(w, 20) && Bit(b, 1) == Bit(w, 21) && Bit(b, 2) == Bit(w, 22) && Bit(b, 3) == Bit(w, 23)
    ensures Bit(b, 4) == Bit(w, 24) && Bit(b, 5) == Bit(w, 25) && Bit(b, 6) == Bit(w, 26) && Bit(b, 7) == Bit(w, 27)
  {
  }

  lemma IOctet0(w: bv32)
    ensures Octet(TypeI.FromRiscv(w).imm) == Bit(w, 20) + 2 * Bit(w, 21) + 4 * Bit(w, 22) + 8 * Bit(w, 23)
             + 16 * Bit(w, 24) + 32 * Bit(w, 25) + 64 * Bit(w, 26) + 128 * Bit(w, 27)
  {
    hide Bit, TypeI.FromRiscv;
    IBits0(w, TypeI.FromRiscv(w).imm);
  }

  lemma IOctets(w: bv32)
    ensures Octet(TypeI.FromRiscv(w).imm >> 8) == Bit(w, 28) + 2 * Bit(w, 29) + 4 * Bit(w, 30) + 248 * Bit(w, 31)
    ensures Octet(TypeI.FromRiscv(w).imm >> 16) == 255 * Bit(w, 31)
    ensures Octet(TypeI.FromRiscv(w).imm >> 24) == 255 * Bit(w, 31)
    ensures Bit(TypeI.FromRiscv(w).imm >> 24, 7) == Bit(w, 31)
  {
  }

  lemma IValue(w: bv32)
    ensures Signed(TypeI.FromRiscv(w).imm) == ImmI(w)
  {
    hide Bit, Octet, Signed, TypeI.FromRiscv;
    SignedSum(TypeI.FromRiscv(w).imm);
    IOctet0(w); IOctets(w);
  }

  lemma SBits0(w: bv32, b: bv32)
    requires b == TypeS.FromRiscv(w).imm
    ensures Bit(b, 0) == Bit(w, 7) && Bit(b, 1) == Bit(w, 8) && Bit(b, 2) == Bit(w, 9) && Bit(b, 3) == Bit(w, 10)
    ensures Bit(b, 4) == Bit(w, 11) && Bit(b, 5) == Bit(w, 25) && Bit(b, 6) == Bit(w, 26) && Bit(b, 7) == Bit(w, 27)
  {
  }

  lemma SOctet0(w: bv32)
    ensures Octet(TypeS.FromRiscv(w).imm) == Bit(w, 7) + 2 * Bit(w, 8) + 4 * Bit(w, 9) + 8 * Bit(w, 10)
             + 16 * Bit(w, 11) + 32 * Bit(w, 25) + 64 * Bit(w, 26) + 128 * Bit(w, 27)
  {
    hide Bit, TypeS.FromRiscv;
    SBits0(w, TypeS.FromRiscv(w).imm);
  }

  lemma SOctets(w: bv32)
    ensures Octet(TypeS.FromRiscv(w).imm >> 8) == Bit(w, 28) + 2 * Bit(w, 29) + 4 * Bit(w, 30) + 248 * Bit(w, 31)
    ensures Octet(TypeS.FromRiscv(w).imm >> 16) == 255 * Bit(w, 31)
    ensures Octet(TypeS.FromRiscv(w).imm >> 24) == 255 * Bit(w, 31)
    ensures Bit(TypeS.FromRiscv(w).imm >> 24, 7) == Bit(w, 31)
  {
  }

  lemma SValue(w: bv32)
    ensures Signed(TypeS.FromRiscv(w).imm) == ImmS(w)
  {
    hide Bit, Octet, Signed, TypeS.FromRiscv;
    SignedSum(TypeS.FromRiscv(w).imm);
    SOctet0(w); SOctets(w);
  }

  lemma BBits0(w: bv32, b: bv32)
    requires b == TypeB.FromRiscv(w).imm
    ensures Bit(b, 0) == 0 && Bit(b, 1) == Bit(w, 8) && Bit(b, 2) == Bit(w, 9) && Bit(b, 3) == Bit(w, 10)
    ensures Bit(b, 4) == Bit(w, 11) && Bit(b, 5) == Bit(w, 25) && Bit(b, 6) == Bit(w, 26) && Bit(b, 7) == Bit(w, 27)
  {
  }

  lemma BOctet0(w: bv32)
    ensures Octet(TypeB.FromRiscv(w).imm) == 2 * Bit(w, 8) + 4 * Bit(w, 9) + 8 * Bit(w, 10) + 16 * Bit(w, 11)
             + 32 * Bit(w, 25) + 64 * Bit(w, 26) + 128 * Bit(w, 27)
  {
    hide Bit, TypeB.FromRiscv;
    BBits0(w, TypeB.FromRiscv(w).imm);
  }

  lemma BOctets(w: bv32)
    ensures Octet(TypeB.FromRiscv(w).imm >> 8) == Bit(w, 28) + 2 * Bit(w, 29) + 4 * Bit(w, 30) + 8 * Bit(w, 7)
             + 240 * Bit(w, 31)
    ensures Octet(TypeB.FromRiscv(w).imm >> 16) == 255 * Bit(w, 31)
    ensures Octet(TypeB.FromRiscv(w).imm >> 24) == 255 * Bit(w, 31)
    ensures Bit(TypeB.FromRiscv(w).imm >> 24, 7) == Bit(w, 31)
  {
  }

  lemma BValue(w: bv32)
    ensures Signed(TypeB.FromRiscv(w).imm) == ImmB(w)
  {
    hide Bit, Octet, Signed, TypeB.FromRiscv;
    SignedSum(TypeB.FromRiscv(w).imm);
    BOctet0(w); BOctets(w);
  }

  lemma UOctet0(w: bv32)
    ensures Octet(TypeU.FromRiscv(w).imm) == 0
  {
  }

  lemma UBits1(w: bv32, b: bv32)
    requires b == TypeU.FromRiscv(w).imm >> 8
    ensures Bit(b, 0) == 0 && Bit(b, 1) == 0 && Bit(b, 2) == 0 && Bit(b, 3) == 0
    ensures Bit(b, 4) == Bit(w, 12) && Bit(b, 5) == Bit(w, 13) && Bit(b, 6) == Bit(w, 14) && Bit(b, 7) == Bit(w, 15)
  {
  }

  lemma UOctet1(w: bv32)
    ensures Octet(TypeU.FromRiscv(w).imm >> 8) == 16 * Bit(w, 12) + 32 * Bit(w, 13) + 64 * Bit(w, 14) + 128 * Bit(w, 15)
  {
    hide Bit, TypeU.FromRiscv;
    UBits1(w, TypeU.FromRiscv(w).imm >> 8);
  }

  lemma UBits2(w: bv32, b: bv32)
    requires b == TypeU.FromRiscv(w).imm >> 16
    ensures Bit(b, 0) == Bit(w, 16) && Bit(b, 1) == Bit(w, 17) && Bit(b, 2) == Bit(w, 18) && Bit(b, 3) == Bit(w, 19)
    ensures Bit(b, 4) == Bit(w, 20) && Bit(b, 5) == Bit(w, 21) && Bit(b, 6) == Bit(w, 22) && Bit(b, 7) == Bit(w, 23)
  {
  }

  lemma UOctet2(w: bv32)
    ensures Octet(TypeU.FromRiscv(w).imm >> 16) == Bit(w, 16) + 2 * Bit(w, 17) + 4 * Bit(w, 18) + 8 * Bit(w, 19)
             + 16 * Bit(w, 20) + 32 * Bit(w, 21) + 64 * Bit(w, 22) + 128 * Bit(w, 23)
  {
    hide Bit, TypeU.FromRiscv;
    UBits2(w, TypeU.FromRiscv(w).imm >> 16);
  }

  lemma UBits3(w: bv32, b: bv32)
    requires b == TypeU.FromRiscv(w).imm >> 24
    ensures Bit(b, 0) == Bit(w, 24) && Bit(b, 1) == Bit(w, 25) && Bit(b, 2) == Bit(w, 26) && Bit(b, 3) == Bit(w, 27)
    ensures Bit(b, 4) == Bit(w, 28) && Bit(b, 5) == Bit(w, 29) && Bit(b, 6) == Bit(w, 30) && Bit(b, 7) == Bit(w, 31)
  {
  }

  lemma UOctet3(w: bv32)
    ensures Octet(TypeU.FromRiscv(w).imm >> 24) == Bit(w, 24) + 2 * Bit(w, 25) + 4 * Bit(w, 26) + 8 * Bit(w, 27)
             + 16 * Bit(w, 28) + 32 * Bit(w, 29) + 64 * Bit(w, 30) + 128 * Bit(w, 31)
  {
    hide Bit, TypeU.FromRiscv;
    UBits3(w, TypeU.FromRiscv(w).imm >> 24);
  }

  lemma UOctets(w: bv32)
    ensures Bit(TypeU.FromRiscv(w).imm >> 24, 7) == Bit(w, 31)
  {
  }

  lemma UValue(w: bv32)
    ensures Signed(TypeU.FromRiscv(w).imm) == ImmU(w)
  {
    hide Bit, Octet, Signed, TypeU.FromRiscv;
    SignedSum(TypeU.FromRiscv(w).imm);
    UOctet0(w); UOctet1(w); UOctet2(w); UOctet3(w); UOctets(w);
  }

  lemma JBits0(w: bv32, b: bv32)
    requires b == TypeJ.FromRiscv(w).imm
    ensures Bit(b, 0) == 0 && Bit(b, 1) == Bit(w, 21) && Bit(b, 2) == Bit(w, 22) && Bit(b, 3) == Bit(w, 23)
    ensures Bit(b, 4) == Bit(w, 24) && Bit(b, 5) == Bit(w, 25) && Bit(b, 6) == Bit(w, 26) && Bit(b, 7) == Bit(w, 27)
  {
  }

  lemma JOctet0(w: bv32)
    ensures Octet(TypeJ.FromRiscv(w).imm) == 2 * Bit(w, 21) + 4 * Bit(w, 22) + 8 * Bit(w, 23) + 16 * Bit(w, 24)
             + 32 * Bit(w, 25) + 64 * Bit(w, 26) + 128 * Bit(w, 27)
  {
    hide Bit, TypeJ.FromRiscv;
    JBits0(w, TypeJ.FromRiscv(w).imm);
  }

  lemma JBits1(w: bv32, b: bv32)
    requires b == TypeJ.FromRiscv(w).imm >> 8
    ensures Bit(b, 0) == Bit(w, 28) && Bit(b, 1) == Bit(w, 29) && Bit(b, 2) == Bit(w, 30) && Bit(b, 3) == Bit(w, 20)
    ensures Bit(b, 4) == Bit(w, 12) && Bit(b, 5) == Bit(w, 13) && Bit(b, 6) == Bit(w, 14) && Bit(b, 7) == Bit(w, 15)
  {
  }

  lemma JOctet1(w: bv32)
    ensures Octet(TypeJ.FromRiscv(w).imm >> 8) == Bit(w, 28) + 2 * Bit(w, 29) + 4 * Bit(w, 30) + 8 * Bit(w, 20)
             + 16 * Bit(w, 12) + 32 * Bit(w, 13) + 64 * Bit(w, 14) + 128 * Bit(w, 15)
  {
    hide Bit, TypeJ.FromRiscv;
    JBits1(w, TypeJ.FromRiscv(w).imm >> 8);
  }

  lemma JBits2(w: bv32, b: bv32)
    requires b == TypeJ.FromRiscv(w).imm >> 16
    ensures Bit(b, 0) == Bit(w, 16) && Bit(b, 1) == Bit(w, 17) && Bit(b, 2) == Bit(w, 18) && Bit(b, 3) == Bit(w, 19)
    ensures Bit(b, 4) == Bit(w, 31) && Bit(b, 5) == Bit(w, 31) && Bit(b, 6) == Bit(w, 31) && Bit(b, 7) == Bit(w, 31)
  {
  }

  lemma JOctet2(w: bv32)
    ensures Octet(TypeJ.FromRiscv(w).imm >> 16) == Bit(w, 16) + 2 * Bit(w, 17) + 4 * Bit(w, 18) + 8 * Bit(w, 19)
             + 240 * Bit(w, 31)
  {
    hide Bit, TypeJ.FromRiscv;
    JBits2(w, TypeJ.FromRiscv(w).imm >> 16);
  }

  lemma JOctets(w: bv32)
    ensures Octet(TypeJ.FromRiscv(w).imm >> 24) == 255 * Bit(w, 31)
    ensures Bit(TypeJ.FromRiscv(w).imm >> 24, 7) == Bit(w, 31)
  {
  }

  lemma JValue(w: bv32)
    ensures Signed(TypeJ.FromRiscv(w).imm) == ImmJ(w)
  {
    hide Bit, Octet, Signed, TypeJ.FromRiscv;
    SignedSum(TypeJ.FromRiscv(w).imm);
    JOctet0(w); JOctet1(w); JOctet2(w); JOctets(w);
  }

  lemma CIWOctet0(w: bv32)
    ensures Octet(TypeCIW.FromRiscv(w).imm) == 4 * Bit(w, 6) + 8 * Bit(w, 5) + 16 * Bit(w, 11) + 32 * Bit(w, 12)
             + 64 * Bit(w, 7) + 128 * Bit(w, 8)
  {
  }

  lemma CIWOctets(w: bv32)
    ensures Octet(TypeCIW.FromRiscv(w).imm >> 8) == Bit(w, 9) + 2 * Bit(w, 10)
    ensures Octet(TypeCIW.FromRiscv(w).imm >> 16) == 0
    ensures Octet(TypeCIW.FromRiscv(w).imm >> 24) == 0
    ensures Bit(TypeCIW.FromRiscv(w).imm >> 24, 7) == 0
  {
  }

  lemma CIWValue(w: bv32)
    ensures Signed(TypeCIW.FromRiscv(w).imm) == ImmCiw(w)
  {
    hide Bit, Octet, Signed, TypeCIW.FromRiscv;
    SignedSum(TypeCIW.FromRiscv(w).imm);
    CIWOctet0(w); CIWOctets(w);
  }

  lemma CLOctet0(w: bv32)
    ensures Octet(TypeCL.FromRiscv(w).imm) == 4 * Bit(w, 6) + 8 * Bit(w, 10) + 16 * Bit(w, 11) + 32 * Bit(w, 12)
             + 64 * Bit(w, 5)
  {
  }

  lemma CLOctets(w: bv32)
    ensures Octet(TypeCL.FromRiscv(w).imm >> 8) == 0
    ensures Octet(TypeCL.FromRiscv(w).imm >> 16) == 0
    ensures Octet(TypeCL.FromRiscv(w).imm >> 24) == 0
    ensures Bit(TypeCL.FromRiscv(w).imm >> 24, 7) == 0
  {
  }

  lemma CLValue(w: bv32)
    ensures Signed(TypeCL.FromRiscv(w).imm) == ImmCl(w)
  {
    hide Bit, Octet, Signed, TypeCL.FromRiscv;
    SignedSum(TypeCL.FromRiscv(w).imm);
    CLOctet0(w); CLOctets(w);
  }

  lemma CI1Octet0(w: bv32)
    ensures Octet(TypeCI1.FromRiscv(w).imm) == Bit(w, 2) + 2 * Bit(w, 3) + 4 * Bit(w, 4) + 8 * Bit(w, 5)
             + 16 * Bit(w, 6) + 224 * Bit(w, 12)
  {
  }

  lemma CI1Octets(w: bv32)
    ensures Octet(TypeCI1.FromRiscv(w).imm >> 8) == 255 * Bit(w, 12)
    ensures Octet(TypeCI1.FromRiscv(w).imm >> 16) == 255 * Bit(w, 12)
    ensures Octet(TypeCI1.FromRiscv(w).imm >> 24) == 255 * Bit(w, 12)
    ensures Bit(TypeCI1.FromRiscv(w).imm >> 24, 7) == Bit(w, 12)
  {
  }

  lemma CI1Value(w: bv32)
    ensures Signed(TypeCI1.FromRiscv(w).imm) == ImmCi(w)
  {
    hide Bit, Octet, Signed, TypeCI1.FromRiscv;
    SignedSum(TypeCI1.FromRiscv(w).imm);
    CI1Octet0(w); CI1Octets(w);
  }

  lemma CI2Octet0(w: bv32)
    ensures Octet(TypeCI2.FromRiscv(w).imm) == 16 * Bit(w, 6) + 32 * Bit(w, 2) + 64 * Bit(w, 5) + 128 * Bit(w, 3)
  {
  }

  lemma CI2Octets(w: bv32)
    ensures Octet(TypeCI2.FromRiscv(w).imm >> 8) == Bit(w, 4) + 254 * Bit(w, 12)
    ensures Octet(TypeCI2.FromRiscv(w).imm >> 16) == 255 * Bit(w, 12)
    ensures Octet(TypeCI2.FromRiscv(w).imm >> 24) == 255 * Bit(w, 12)
    ensures Bit(TypeCI2.FromRiscv(w).imm >> 24, 7) == Bit(w, 12)
  {
  }

  lemma CI2Value(w: bv32)
    ensures Signed(TypeCI2.FromRiscv(w).imm) == ImmCiAddi16sp(w)
  {
    hide Bit, Octet, Signed, TypeCI2.FromRiscv;
    SignedSum(TypeCI2.FromRiscv(w).imm);
    CI2Octet0(w); CI2Octets(w);
  }

  lemma CI3Octet0(w: bv32)
    ensures Octet(TypeCI3.FromRiscv(w).imm) == 0
  {
  }

  lemma CI3Octets(w: bv32)
    ensures Octet(TypeCI3.FromRiscv(w).imm >> 8) == 16 * Bit(w, 2) + 32 * Bit(w, 3) + 64 * Bit(w, 4) + 128 * Bit(w, 5)
    ensures Octet(TypeCI3.FromRiscv(w).imm >> 16) == Bit(w, 6) + 254 * Bit(w, 12)
    ensures Octet(TypeCI3.FromRiscv(w).imm >> 24) == 255 * Bit(w, 12)
    ensures Bit(TypeCI3.FromRiscv(w).imm >> 24, 7) == Bit(w, 12)
  {
  }

  lemma CI3Value(w: bv32)
    ensures Signed(TypeCI3.FromRiscv(w).imm) == 4096 * ImmCi(w)
  {
    hide Bit, Octet, Signed, TypeCI3.FromRiscv;
    SignedSum(TypeCI3.FromRiscv(w).imm);
    CI3Octet0(w); CI3Octets(w);
  }

  lemma CI4Octet0(w: bv32)
    ensures Octet(TypeCI4.FromRiscv(w).imm) == Bit(w, 2) + 2 * Bit(w, 3) + 4 * Bit(w, 4) + 8 * Bit(w, 5)
             + 16 * Bit(w, 6) + 32 * Bit(w, 12)
  {
  }

  lemma CI4Octets(w: bv32)
    ensures Octet(TypeCI4.FromRiscv(w).imm >> 8) == 0
    ensures Octet(TypeCI4.FromRiscv(w).imm >> 16) == 0
    ensures Octet(TypeCI4.FromRiscv(w).imm >> 24) == 0
    ensures Bit(TypeCI4.FromRiscv(w).imm >> 24, 7) == 0
  {
  }

  lemma CI4Value(w: bv32)
    ensures Signed(TypeCI4.FromRiscv(w).imm) == 32 * Bit(w, 12) + Bits6To2(w)
  {
    hide Bit, Octet, Signed, TypeCI4.FromRiscv;
    SignedSum(TypeCI4.FromRiscv(w).imm);
    CI4Octet0(w); CI4Octets(w);
  }

  lemma CI5Octet0(w: bv32)
    ensures Octet(TypeCI5.FromRiscv(w).imm) == 4 * Bit(w, 4) + 8 * Bit(w, 5) + 16 * Bit(w, 6) + 32 * Bit(w, 12)
             + 64 * Bit(w, 2) + 128 * Bit(w, 3)
  {
  }

  lemma CI5Octets(w: bv32)
    ensures Octet(TypeCI5.FromRiscv(w).imm >> 8) == 0
    ensures Octet(TypeCI5.FromRiscv(w).imm >> 16) == 0
    ensures Octet(TypeCI5.FromRiscv(w).imm >> 24) == 0
    ensures Bit(TypeCI5.FromRiscv(w).imm >> 24, 7) == 0
  {
  }

  lemma CI5Value(w: bv32)
    ensures Signed(TypeCI5.FromRiscv(w).imm) == ImmCiLwsp(w)
  {
    hide Bit, Octet, Signed, TypeCI5.FromRiscv;
    SignedSum(TypeCI5.FromRiscv(w).imm);
    CI5Octet0(w); CI5Octets(w);
  }

  lemma CB1Octet0(w: bv32)
    ensures Octet(TypeCB1.FromRiscv(w).imm) == Bit(w, 2) + 2 * Bit(w, 3) + 4 * Bit(w, 4) + 8 * Bit(w, 5)
             + 16 * Bit(w, 6) + 32 * Bit(w, 12)
  {
  }

  lemma CB1Octets(w: bv32)
    ensures Octet(TypeCB1.FromRiscv(w).imm >> 8) == 0
    ensures Octet(TypeCB1.FromRiscv(w).imm >> 16) == 0
    ensures Octet(TypeCB1.FromRiscv(w).imm >> 24) == 0
    ensures Bit(TypeCB1.FromRiscv(w).imm >> 24, 7) == 0
  {
  }

  lemma CB1Value(w: bv32)
    ensures Signed(TypeCB1.FromRiscv(w).imm) == 32 * Bit(w, 12) + Bits6To2(w)
  {
    hide Bit, Octet, Signed, TypeCB1.FromRiscv;
    SignedSum(TypeCB1.FromRiscv(w).imm);
    CB1Octet0(w); CB1Octets(w);
  }

  lemma CB2Octet0(w: bv32)
    ensures Octet(TypeCB2.FromRiscv(w).imm) == Bit(w, 2) + 2 * Bit(w, 3) + 4 * Bit(w, 4) + 8 * Bit(w, 5)
             + 16 * Bit(w, 6) + 224 * Bit(w, 12)
  {
  }

  lemma CB2Octets(w: bv32)
    ensures Octet(TypeCB2.FromRiscv(w).imm >> 8) == 255 * Bit(w, 12)
    ensures Octet(TypeCB2.FromRiscv(w).imm >> 16) == 255 * Bit(w, 12)
    ensures Octet(TypeCB2.FromRiscv(w).imm >> 24) == 255 * Bit(w, 12)
    ensures Bit(TypeCB2.FromRiscv(w).imm >> 24, 7) == Bit(w, 12)
  {
  }

  lemma CB2Value(w: bv32)
    ensures Signed(TypeCB2.FromRiscv(w).imm) == ImmCi(w)
  {
    hide Bit, Octet, Signed, TypeCB2.FromRiscv;
    SignedSum(TypeCB2.FromRiscv(w).imm);
    CB2Octet0(w); CB2Octets(w);
  }

  lemma CB4Octet0(w: bv32)
    ensures Octet(TypeCB4.FromRiscv(w).imm) == 2 * Bit(w, 3) + 4 * Bit(w, 4) + 8 * Bit(w, 10) + 16 * Bit(w, 11)
             + 32 * Bit(w, 2) + 64 * Bit(w, 5) + 128 * Bit(w, 6)
  {
  }

  lemma CB4Octets(w: bv32)
    ensures Octet(TypeCB4.FromRiscv(w).imm >> 8) == 255 * Bit(w, 12)
    ensures Octet(TypeCB4.FromRiscv(w).imm >> 16) == 255 * Bit(w, 12)
    ensures Octet(TypeCB4.FromRiscv(w).imm >> 24) == 255 * Bit(w, 12)
    ensures Bit(TypeCB4.FromRiscv(w).imm >> 24, 7) == Bit(w, 12)
  {
  }

  lemma CB4Value(w: bv32)
    ensures Signed(TypeCB4.FromRiscv(w).imm) == ImmCb(w)
  {
    hide Bit, Octet, Signed, TypeCB4.FromRiscv;
    SignedSum(TypeCB4.FromRiscv(w).imm);
    CB4Octet0(w); CB4Octets(w);
  }

  lemma CSSOctet0(w: bv32)
    ensures Octet(TypeCSS.FromRiscv(w).imm) == 4 * Bit(w, 9) + 8 * Bit(w, 10) + 16 * Bit(w, 11) + 32 * Bit(w, 12)
             + 64 * Bit(w, 7) + 128 * Bit(w, 8)
  {
  }

  lemma CSSOctets(w: bv32)
    ensures Octet(TypeCSS.FromRiscv(w).imm >> 8) == 0
    ensures Octet(TypeCSS.FromRiscv(w).imm >> 16) == 0
    ensures Octet(TypeCSS.FromRiscv(w).imm >> 24) == 0
    ensures Bit(TypeCSS.FromRiscv(w).imm >> 24, 7) == 0
  {
  }

  lemma CSSValue(w: bv32)
    ensures Signed(TypeCSS.FromRiscv(w).imm) == ImmCss(w)
  {
    hide Bit, Octet, Signed, TypeCSS.FromRiscv;
    SignedSum(TypeCSS.FromRiscv(w).imm);
    CSSOctet0(w); CSSOctets(w);
  }

  lemma CJOctet0(w: bv32)
    ensures Octet(TypeCJ.FromRiscv(w).imm) == 2 * Bit(w, 3) + 4 * Bit(w, 4) + 8 * Bit(w, 5) + 16 * Bit(w, 11)
             + 32 * Bit(w, 2) + 64 * Bit(w, 7) + 128 * Bit(w, 6)
  {
  }

  lemma CJOctets(w: bv32)
    ensures Octet(TypeCJ.FromRiscv(w).imm >> 8) == Bit(w, 9) + 2 * Bit(w, 10) + 4 * Bit(w, 8) + 248 * Bit(w, 12)
    ensures Octet(TypeCJ.FromRiscv(w).imm >> 16) == 255 * Bit(w, 12)
    ensures Octet(TypeCJ.FromRiscv(w).imm >> 24) == 255 * Bit(w, 12)
    ensures Bit(TypeCJ.FromRiscv(w).imm >> 24, 7) == Bit(w, 12)
  {
  }

  lemma CJValue(w: bv32)
    ensures Signed(TypeCJ.FromRiscv(w).imm) == ImmCj(w)
  {
    hide Bit, Octet, Signed, TypeCJ.FromRiscv;
    SignedSum(TypeCJ.FromRiscv(w).imm);
    CJOctet0(w); CJOctets(w);
  }
}
