/**
  The bitwise operations and the shifts of the interpreter, digit by digit: where each digit of the result
  comes from.
 */
module AluDigits {
  import opened Wrappers
  import opened Words
  import opened BinaryDigits
  import opened Arithmetic
  import E = Exec
  import Reference

  lemma HalfOfQuotient(x: int, p: int)
    requires p > 0
    ensures (x / 2) / p == x / (2 * p)
  {
    var q, r := (x / 2) / p, (x / 2) % p;
    DivMod(x / 2, p);
    assert q * (2 * p) == 2 * (q * p);
    DivisionUnique(x, 2 * p, q, 2 * r + x % 2);
  }

  lemma {:induction false} ShiftedRightDigit(x: int, n: nat, k: nat)
    ensures Digit(x / Pow2(n), k) == Digit(x, k + n)
    decreases n
  {
    if n > 0 {
      HalfOfQuotient(x, Pow2(n - 1));
      ShiftedRightDigit(x / 2, n - 1, k);
    }
  }

  lemma {:induction false} ShiftedLeftDigit(x: int, n: nat, k: nat)
    ensures Digit(x * Pow2(n), k) <==> k >= n && Digit(x, k - n)
    decreases n
  {
    if n > 0 {
      var z := x * Pow2(n - 1);
      assert x * Pow2(n) == 2 * z;
      if k > 0 {
        ShiftedLeftDigit(x, n - 1, k - 1);
      }
    }
  }

  lemma NoDigit(u: nat, n: nat, k: nat)
    requires u < Pow2(n) && n <= k
    ensures !Digit(u, k)
    decreases n
  {
    if n > 0 {
      NoDigit(u / 2, n - 1, k - 1);
    } else {
      ZeroDigits(k);
    }
  }

  lemma ZeroDigits(k: nat)
    ensures !Digit(0, k)
  {
  }

  lemma UnsignedDigits(a: i32, k: nat)
    ensures Digit(ToU32(a), k) <==> k < 32 && Digit(a, k)
  {
    hide Digit, ToU32, Pow2;
    Word32();
    if k < 32 {
      UnsignedDigit(a, k);
    } else {
      NoDigit(ToU32(a), 32, k);
    }
  }

  const SLL: bv16 := 2
  const XOR: bv16 := 5
  const SRL: bv16 := 6
  const SRA: bv16 := 7
  const OR: bv16 := 8
  const AND: bv16 := 9

  /** A left shift moves every digit up and fills with zeros. */
  lemma LeftShiftDigits(a: i32, b: i32, k: nat)
    requires k < 32
    ensures var n := ToU32(b) % 32;
            E.Alu(SLL, a, b).Some? && (Digit(E.Alu(SLL, a, b).value, k) <==> k >= n && Digit(a, k - n))
  {
    hide Digit, Pow2, ToU32, WrapI32, Reference.Low32;
    var n := ToU32(b) % 32;
    var x := a * Pow2(n);
    Congruent(x, x, 0);
    LowDigit(x, k);
    ShiftedLeftDigit(a, n, k);
  }

  /** A right shift moves every digit down and fills with zeros, or with copies of the sign digit. */
  lemma RightShiftDigits(a: i32, b: i32, k: nat)
    requires k < 32
    ensures var n := ToU32(b) % 32;
            && E.Alu(SRL, a, b).Some? && E.Alu(SRA, a, b).Some?
            && (Digit(E.Alu(SRL, a, b).value, k) <==> k + n < 32 && Digit(a, k + n))
            && (Digit(E.Alu(SRA, a, b).value, k) <==> Digit(a, if k + n < 32 then k + n else 31))
  {
    hide Digit, Pow2, ToU32, Reference.Low32, ShiftRightLogical, ShiftRightArithmetic;
    var n := ToU32(b) % 32;
    ShiftRightSame(a, n);
    LowDigit(ToU32(a) / Pow2(n), k);
    LowDigit(a / Pow2(n), k);
    ShiftedRightDigit(ToU32(a), n, k);
    ShiftedRightDigit(a, n, k);
    UnsignedDigits(a, k + n);
    SignDigits(a, k + n);
  }

  lemma {:induction false} HighDigits(a: int, n: nat, k: nat)
    requires -a <= Pow2(n) && a < Pow2(n) && n <= k
    ensures Digit(a, k) <==> a < 0
    decreases k
  {
    if n > 0 {
      HighDigits(a / 2, n - 1, k - 1);
    } else if k > 0 {
      HighDigits(a / 2, 0, k - 1);
    }
  }

  lemma SignDigits(a: i32, k: nat)
    ensures k >= 31 ==> (Digit(a, k) <==> Digit(a, 31))
  {
    hide Digit;
    assert Pow2(31) == 0x8000_0000 by { Word32(); }
    if k >= 31 {
      HighDigits(a, 31, k);
      HighDigits(a, 31, 31);
    }
  }

  /** AND sets a digit exactly when both operands have it, OR when one has it, XOR when one alone has it. */
  lemma BitwiseAluDigits(a: i32, b: i32, k: nat)
    requires k < 32
    ensures E.Alu(AND, a, b).Some? && (Digit(E.Alu(AND, a, b).value, k) <==> Digit(a, k) && Digit(b, k))
    ensures E.Alu(OR, a, b).Some? && (Digit(E.Alu(OR, a, b).value, k) <==> Digit(a, k) || Digit(b, k))
    ensures E.Alu(XOR, a, b).Some? && (Digit(E.Alu(XOR, a, b).value, k) <==> Digit(a, k) != Digit(b, k))
  {
    hide Digit, And, Or, Xor;
    BitwiseDigits(a, b, k);
  }
}
