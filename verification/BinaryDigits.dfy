/**
  Binary digits of integers: the bitwise operations of the interpreter, which work on bit patterns, are
  those of the reference machine, which work on digits; and shifts move digits.
 */
module BinaryDigits {
  import opened Words
  import Reference

  /** Digit `k` of `x`; a negative number has infinitely many leading ones. */
  predicate Digit(x: int, k: nat)
    decreases k
  {
    if k == 0 then x % 2 == 1 else Digit(x / 2, k - 1)
  }

  // Bit patterns.

  function Half(w: bv32): bv32 { w >> 1 }

  predicate Odd(w: bv32) { w & 1 == 1 }

  function AndBits(v: bv32, w: bv32): bv32 { v & w }

  lemma AndHalves(v: bv32, w: bv32)
    ensures Half(AndBits(v, w)) == AndBits(Half(v), Half(w))
    ensures Odd(AndBits(v, w)) <==> Odd(v) && Odd(w)
  {
  }

  function OrBits(v: bv32, w: bv32): bv32 { v | w }

  lemma OrHalves(v: bv32, w: bv32)
    ensures Half(OrBits(v, w)) == OrBits(Half(v), Half(w))
    ensures Odd(OrBits(v, w)) <==> Odd(v) || Odd(w)
  {
  }

  function XorBits(v: bv32, w: bv32): bv32 { v ^ w }

  lemma XorHalves(v: bv32, w: bv32)
    ensures Half(XorBits(v, w)) == XorBits(Half(v), Half(w))
    ensures Odd(XorBits(v, w)) <==> Odd(v) != Odd(w)
  {
  }

  function Pattern(op: Reference.BitOp, v: bv32, w: bv32): bv32 {
    match op
    case BitAnd => AndBits(v, w)
    case BitOr => OrBits(v, w)
    case BitXor => XorBits(v, w)
  }

  lemma ZeroPatterns()
    ensures AndBits(0, 0) == OrBits(0, 0) == XorBits(0, 0) == 0
  {
  }

  lemma PatternHalves(op: Reference.BitOp, v: bv32, w: bv32)
    ensures Half(Pattern(op, v, w)) == Pattern(op, Half(v), Half(w))
    ensures Odd(Pattern(op, v, w)) == op.On(Odd(v), Odd(w))
    ensures Pattern(op, 0, 0) == 0
  {
    hide Half, Odd, AndBits, OrBits, XorBits;
    ZeroPatterns();
    AndHalves(v, w);
    OrHalves(v, w);
    XorHalves(v, w);
  }

  lemma HalfOf(w: bv32)
    ensures Nat(Half(w)) == Nat(w) / 2
    ensures Odd(w) <==> Nat(w) % 2 == 1
  {
    NatStep(w, w >> 1, if w & 1 == 1 then 1 else 0);
  }

  lemma {:induction false} PatternDigits(op: Reference.BitOp, v: bv32, w: bv32, n: nat)
    requires Nat(v) < Pow2(n) && Nat(w) < Pow2(n)
    ensures Nat(Pattern(op, v, w)) == Reference.Digitwise(op, Nat(v), Nat(w), n)
    decreases n
  {
    hide Nat, Pattern, Half, Odd;
    PatternHalves(op, v, w);
    if n == 0 {
      NatZero(v);
      NatZero(w);
    } else {
      HalfOf(v);
      HalfOf(w);
      HalfOf(Pattern(op, v, w));
      PatternDigits(op, Half(v), Half(w), n - 1);
    }
  }

  lemma Word32()
    ensures Pow2(32) == 0x1_0000_0000
  {
    assert Pow2(15) == 0x8000;
    assert Pow2(24) == 0x100_0000;
  }

  lemma BitsNumber(a: i32)
    ensures Nat(Bits(a)) == ToU32(a)
  {
    hide Nat, Word;
    NatWord(ToU32(a));
  }

  lemma PatternSame(op: Reference.BitOp, a: i32, b: i32)
    ensures Signed(Pattern(op, Bits(a), Bits(b))) == Reference.Digits(op, a, b)
  {
    hide Nat, Bits, ToU32, Pow2, Reference.Digitwise, Pattern;
    Word32();
    BitsNumber(a);
    BitsNumber(b);
    PatternDigits(op, Bits(a), Bits(b), 32);
  }

  lemma OperationBits(a: i32, b: i32)
    ensures And(a, b) == Signed(AndBits(Bits(a), Bits(b)))
    ensures Or(a, b) == Signed(OrBits(Bits(a), Bits(b)))
    ensures Xor(a, b) == Signed(XorBits(Bits(a), Bits(b)))
  {
    hide Signed, Bits;
  }

  /** The interpreter's operations are those of the reference machine. */
  lemma BitwiseSame(a: i32, b: i32)
    ensures And(a, b) == Reference.Digits(Reference.BitAnd, a, b)
    ensures Or(a, b) == Reference.Digits(Reference.BitOr, a, b)
    ensures Xor(a, b) == Reference.Digits(Reference.BitXor, a, b)
  {
    hide And, Or, Xor, Signed, Bits, Reference.Digits, AndBits, OrBits, XorBits;
    OperationBits(a, b);
    PatternSame(Reference.BitAnd, a, b);
    PatternSame(Reference.BitOr, a, b);
    PatternSame(Reference.BitXor, a, b);
  }

  // Digits of results.

  /** Numbers that are equal modulo a power of two have the same last digits. */
  lemma {:induction false} LowDigits(x: int, y: int, q: int, n: nat, k: nat)
    requires x == y + q * Pow2(n) && k < n
    ensures Digit(x, k) == Digit(y, k)
    decreases k
  {
    Halved(y, q, Pow2(n - 1));
    if k > 0 {
      LowDigits(x / 2, y / 2, q, n - 1, k - 1);
    }
  }

  lemma Halved(y: int, q: int, p: int)
    ensures q * (2 * p) == 2 * (q * p)
    ensures (y + q * (2 * p)) / 2 == y / 2 + q * p && (y + q * (2 * p)) % 2 == y % 2
  {
    var z := q * p;
    assert q * (2 * p) == 2 * z;
  }

  /** Casts and wrapping keep the last 32 digits. */
  lemma CastDigits(x: int, y: i32, q: int, k: nat)
    requires x == y + q * 0x1_0000_0000 && k < 32
    ensures Digit(ToU32(y), k) == Digit(y, k) == Digit(x, k)
  {
    hide Pow2;
    Word32();
    LowDigits(x, y, q, 32, k);
    LowDigits(ToU32(y), y, if y < 0 then 1 else 0, 32, k);
  }

  lemma FirstDigit(z: int, bit: bool, k: nat)
    ensures Digit(2 * z + if bit then 1 else 0, k) == if k == 0 then bit else Digit(z, k - 1)
  {
  }

  lemma {:induction false} DigitwiseDigit(op: Reference.BitOp, a: nat, b: nat, n: nat, k: nat)
    requires k < n
    ensures Digit(Reference.Digitwise(op, a, b, n), k) == op.On(Digit(a, k), Digit(b, k))
    decreases n
  {
    FirstDigit(Reference.Digitwise(op, a / 2, b / 2, n - 1), op.On(a % 2 == 1, b % 2 == 1), k);
    if k > 0 {
      DigitwiseDigit(op, a / 2, b / 2, n - 1, k - 1);
    }
  }

  lemma LowDigit(x: int, k: nat)
    requires k < 32
    ensures Digit(Reference.Low32(x), k) == Digit(x, k)
  {
    var q := x / 0x1_0000_0000;
    var y := Reference.Low32(x);
    CastDigits(x, y, if x % 0x1_0000_0000 < 0x8000_0000 then q else q + 1, k);
  }

  lemma UnsignedDigit(a: i32, k: nat)
    requires k < 32
    ensures Digit(ToU32(a), k) == Digit(a, k)
  {
    CastDigits(a, a, 0, k);
  }

  /** AND sets a digit exactly when both operands have it, OR when one has it, XOR when one alone has it. */
  lemma BitwiseDigits(a: i32, b: i32, k: nat)
    requires k < 32
    ensures Digit(And(a, b), k) <==> Digit(a, k) && Digit(b, k)
    ensures Digit(Or(a, b), k) <==> Digit(a, k) || Digit(b, k)
    ensures Digit(Xor(a, b), k) <==> Digit(a, k) != Digit(b, k)
  {
    hide And, Or, Xor, Reference.Low32, Digit, Reference.Digitwise, ToU32;
    BitwiseSame(a, b);
    UnsignedDigit(a, k);
    UnsignedDigit(b, k);
    OperationDigit(Reference.BitAnd, a, b, k);
    OperationDigit(Reference.BitOr, a, b, k);
    OperationDigit(Reference.BitXor, a, b, k);
  }

  lemma OperationDigit(op: Reference.BitOp, a: i32, b: i32, k: nat)
    requires k < 32
    ensures Digit(Reference.Digits(op, a, b), k) == op.On(Digit(ToU32(a), k), Digit(ToU32(b), k))
  {
    hide Reference.Low32, Digit, Reference.Digitwise;
    DigitwiseDigit(op, ToU32(a), ToU32(b), 32, k);
    LowDigit(Reference.Digitwise(op, ToU32(a), ToU32(b), 32), k);
  }
}
