/**
  Arithmetic: the interpreter's wrapping operations compute what the standard defines, and the
  multiplications and divisions are exact.
 */
module Arithmetic {
  import opened Wrappers
  import opened Words
  import E = Exec
  import R = Riscv
  import Reference
  import BinaryDigits
  import M = Meaning

  /** `w` is the one member of its class modulo 2^32 in the range of an `i32`. */
  lemma WrapUnique(x: int, w: i32, k: int)
    requires x == w + k * 0x1_0000_0000
    ensures WrapI32(x) == w == Reference.Low32(x)
  {
    assert x + 0x8000_0000 == (w + 0x8000_0000) + k * 0x1_0000_0000;
    if w < 0 {
      assert x == (w + 0x1_0000_0000) + (k - 1) * 0x1_0000_0000;
    }
  }

  lemma Congruent(x: int, y: int, k: int)
    requires x == y + k * 0x1_0000_0000
    ensures WrapI32(x) == WrapI32(y) == Reference.Low32(x) == Reference.Low32(y)
  {
    var w, q := WrapI32(y), (y + 0x8000_0000) / 0x1_0000_0000;
    assert y == w + q * 0x1_0000_0000;
    hide WrapI32, Reference.Low32;
    WrapUnique(y, w, q);
    WrapUnique(x, w, q + k);
  }

  lemma Unsigned(a: i32)
    ensures ToU32(a) == a + (if a < 0 then 0x1_0000_0000 else 0)
    ensures ToI32(ToU32(a)) == a
    ensures WrapI32(a) == a == Reference.Low32(a)
    ensures Reference.Low32(ToU32(a)) == a
  {
    Congruent(a, a, 0);
  }

  /** Wrapping to 32 and to 64 bits keeps a number modulo 2^32 and modulo 2^64. */
  lemma WrapExactly(x: int)
    ensures WrapU32(x) == x - (x / 0x1_0000_0000) * 0x1_0000_0000
    ensures exists k :: WrapI32(x) == x - k * 0x1_0000_0000
    ensures WrapU64(x) == x - (x / 0x1_0000_0000_0000_0000) * 0x1_0000_0000_0000_0000
    ensures exists k :: WrapI64(x) == x - k * 0x1_0000_0000_0000_0000
    ensures -0x8000_0000_0000_0000 <= WrapI64(x) < 0x8000_0000_0000_0000
  {
    var k := (x + 0x8000_0000) / 0x1_0000_0000;
    assert WrapI32(x) == x - k * 0x1_0000_0000;
    var l := (x + 0x8000_0000_0000_0000) / 0x1_0000_0000_0000_0000;
    assert WrapI64(x) == x - l * 0x1_0000_0000_0000_0000;
  }

  lemma AddSame(a: i32, b: i32)
    ensures WrapI32(a + b) == Reference.Low32(ToU32(a) + ToU32(b))
    ensures WrapI32(a - b) == Reference.Low32(ToU32(a) - ToU32(b))
  {
    var x, y := if a < 0 then 1 else 0, if b < 0 then 1 else 0;
    Congruent(ToU32(a) + ToU32(b), a + b, x + y);
    Congruent(ToU32(a) - ToU32(b), a - b, x - y);
  }

  lemma ShiftedSum(a: int, k: int, p: int)
    ensures (a + k * 0x1_0000_0000) * p == a * p + (k * p) * 0x1_0000_0000
  {
  }

  lemma ShiftLeftSame(a: i32, p: nat)
    ensures WrapI32(a * p) == Reference.Low32(ToU32(a) * p)
  {
    var k := if a < 0 then 1 else 0;
    ShiftedSum(a, k, p);
    Congruent(ToU32(a) * p, a * p, k * p);
  }

  lemma ShiftRightSame(a: i32, n: nat)
    ensures ShiftRightLogical(a, n) == Reference.Low32(ToU32(a) / Pow2(n))
    ensures ShiftRightArithmetic(a, n) == Reference.Low32(a / Pow2(n))
  {
    hide Reference.Low32, ToI32;
    ShiftedInRange(ToU32(a), Pow2(n));
    ShiftedInRange(a, Pow2(n));
    Narrow(ToU32(a) / Pow2(n));
    Unsigned(a / Pow2(n));
  }

  lemma Narrow(u: u32)
    ensures ToI32(u) == Reference.Low32(u)
  {
  }

  // Products.

  lemma ProductMonotone(x: nat, y: nat, x': nat, y': nat)
    requires x <= x' && y <= y'
    ensures 0 <= x * y <= x' * y'
  {
    assert x * y <= x' * y;
    assert x' * y <= x' * y';
  }

  lemma ProductBound(a: int, b: int, x: int, y: int)
    requires -x <= a <= x && -y <= b <= y
    ensures -(x * y) <= a * b <= x * y
  {
    var p: int, q: int := Reference.Magnitude(a), Reference.Magnitude(b);
    ProductMonotone(p, q, x, y);
    assert a * b == p * q || a * b == -(p * q);
  }

  lemma HighSame(x: int)
    requires -0x8000_0000_0000_0000 <= x < 0x8000_0000_0000_0000
    ensures ToI32(WrapU32(WrapI64(x) / 0x1_0000_0000)) == Reference.Low32(x / 0x1_0000_0000)
  {
  }

  lemma HighUnsignedSame(x: int)
    requires 0 <= x < 0x1_0000_0000_0000_0000
    ensures ToI32(WrapU32(WrapU64(x) / 0x1_0000_0000)) == Reference.Low32(x / 0x1_0000_0000)
  {
  }

  lemma MulHighSame(a: i32, b: i32)
    ensures ToI32(WrapU32(WrapI64(a * b) / 0x1_0000_0000)) == Reference.Low32((a * b) / 0x1_0000_0000)
  {
    ProductBound(a, b, 0x8000_0000, 0x8000_0000);
    HighSame(a * b);
  }

  lemma MulHighSignedUnsignedSame(a: i32, b: u32)
    ensures ToI32(WrapU32(WrapI64(a * b) / 0x1_0000_0000)) == Reference.Low32((a * b) / 0x1_0000_0000)
  {
    ProductBound(a, b, 0x8000_0000, 0xFFFF_FFFF);
    HighSame(a * b);
  }

  lemma MulHighUnsignedSame(a: u32, b: u32)
    ensures ToI32(WrapU32(WrapU64(a * b) / 0x1_0000_0000)) == Reference.Low32((a * b) / 0x1_0000_0000)
  {
    ProductMonotone(a, b, 0xFFFF_FFFF, 0xFFFF_FFFF);
    HighUnsignedSame(a * b);
  }

  // Quotients.

  lemma ProductAtLeast(d: int, b: int)
    requires d != 0
    ensures Reference.Magnitude(d * b) >= Reference.Magnitude(b)
  {
    ProductMonotone(1, Reference.Magnitude(b), Reference.Magnitude(d), Reference.Magnitude(b));
    assert Reference.Magnitude(d * b) == Reference.Magnitude(d) * Reference.Magnitude(b);
  }

  lemma DivMod(a: int, b: int)
    requires b != 0
    ensures a == (a / b) * b + a % b && 0 <= a % b < Reference.Magnitude(b)
  {
  }

  lemma SameProduct(q: int, q': int, b: int)
    ensures (q - q') * b == q * b - q' * b
  {
  }

  lemma DivisionUnique(a: int, b: int, q: int, r: int)
    requires b != 0 && a == q * b + r && 0 <= r < Reference.Magnitude(b)
    ensures a / b == q && a % b == r
  {
    DivMod(a, b);
    SameProduct(q, a / b, b);
    if q != a / b {
      ProductAtLeast(q - a / b, b);
    }
  }

  lemma NegativeDivisor(a: int, b: int)
    requires a >= 0 && b > 0
    ensures a / -b == -(a / b) && a % -b == a % b
  {
    DivMod(a, b);
    assert (-(a / b)) * (-b) == (a / b) * b;
    DivisionUnique(a, -b, -(a / b), a % b);
  }

  lemma QuotientSame(a: int, b: int)
    requires b != 0
    ensures TruncDiv(a, b) == Reference.Quotient(a, b)
  {
    if b < 0 {
      NegativeDivisor(Reference.Magnitude(a), -b);
    }
  }

  /** `b` times the rounded quotient, in terms of the magnitudes. */
  lemma QuotientProduct(a: int, b: int, product: int)
    requires b != 0
    requires product == Reference.Magnitude(b) * (Reference.Magnitude(a) / Reference.Magnitude(b))
    ensures b * Reference.Quotient(a, b) == if a < 0 then -product else product
  {
  }

  lemma RemainderSame(a: int, b: int)
    requires b != 0
    ensures a - b * TruncDiv(a, b) == Reference.Remainder(a, b)
  {
    var p: int, q: int := Reference.Magnitude(a), Reference.Magnitude(b);
    DivMod(p, q);
    QuotientSame(a, b);
    QuotientProduct(a, b, q * (p / q));
  }

  /** Every register operation computes the result that the standard defines. */
  lemma AluSame(func: bv16, a: i32, b: i32)
    requires M.AluOf(func).Some?
    ensures E.Alu(func, a, b) == Some(Reference.Alu(M.AluOf(func).value, a, b))
  {
    hide ToU32, ToI32, WrapI32, WrapI64, WrapU32, WrapU64, Reference.Low32, Xor, And, Or, ShiftRightLogical,
      ShiftRightArithmetic, TruncDiv, Reference.Quotient, Reference.Remainder, Reference.Digits, Pow2;
    match M.AluOf(func).value {
      case ADD => AddSame(a, b);
      case SUB => AddSame(a, b);
      case SLL => ShiftLeftSame(a, Pow2(ToU32(b) % 32));
      case SRL => ShiftRightSame(a, ToU32(b) % 32);
      case SRA => ShiftRightSame(a, ToU32(b) % 32);
      case MUL => Congruent(a * b, a * b, 0);
      case MULH => MulHighSame(a, b);
      case MULHSU => MulHighSignedUnsignedSame(a, ToU32(b));
      case MULHU => MulHighUnsignedSame(ToU32(a), ToU32(b));
      case DIV => DivSame(a, b);
      case DIVU => DivUnsignedSame(a, b);
      case REM => RemSame(a, b);
      case REMU => DivUnsignedSame(a, b);
      case SLT =>
      case SLTU =>
      case _ => BinaryDigits.BitwiseSame(a, b);
    }
  }

  lemma DivSame(a: i32, b: i32)
    ensures b != 0 ==> WrapI32(TruncDiv(a, b)) == Reference.Low32(Reference.Quotient(a, b))
  {
    if b != 0 {
      QuotientSame(a, b);
      Congruent(TruncDiv(a, b), TruncDiv(a, b), 0);
    }
  }

  lemma RemSame(a: i32, b: i32)
    ensures b != 0 ==> WrapI32(a - b * TruncDiv(a, b)) == Reference.Low32(Reference.Remainder(a, b))
  {
    if b != 0 {
      RemainderSame(a, b);
      Congruent(a - b * TruncDiv(a, b), a - b * TruncDiv(a, b), 0);
    }
  }

  lemma NonZero(b: i32)
    ensures b != 0 <==> ToU32(b) != 0
  {
  }

  lemma DivUnsignedSame(a: i32, b: i32)
    ensures b != 0 ==> ToU32(b) != 0
    ensures b != 0 ==> ToI32(WrapU32(ToU32(a) / ToU32(b))) == Reference.Low32(ToU32(a) / ToU32(b))
    ensures b != 0 ==> ToI32(WrapU32(ToU32(a) % ToU32(b))) == Reference.Low32(ToU32(a) % ToU32(b))
  {
    NonZero(b);
  }

  // Exactness.

  const MUL: bv16 := 10
  const MULH: bv16 := 11
  const MULHSU: bv16 := 12
  const MULHU: bv16 := 13
  const DIV: bv16 := 14
  const DIVU: bv16 := 15
  const REM: bv16 := 16
  const REMU: bv16 := 17

  lemma HighLow(x: int, high: int, low: int)
    requires -0x8000_0000_0000_0000 <= x < 0x8000_0000_0000_0000
    requires high == ToI32(WrapU32(WrapI64(x) / 0x1_0000_0000)) && low == WrapI32(x)
    ensures high * 0x1_0000_0000 + ToU32(low) == x
  {
    var q := x / 0x1_0000_0000;
    assert -0x8000_0000 <= q < 0x8000_0000;
    hide WrapI64, WrapU32, WrapI32;
    LowWord(x);
    HighWord(x, q);
  }

  lemma HighWord(x: int, q: int)
    requires x / 0x1_0000_0000 == q && -0x8000_0000 <= q < 0x8000_0000
    ensures ToI32(WrapU32(WrapI64(x) / 0x1_0000_0000)) == q
  {
    assert WrapI64(x) == x;
    hide WrapI64;
    assert WrapU32(q) == (if q < 0 then q + 0x1_0000_0000 else q);
  }

  lemma HighLowUnsigned(x: int, high: i32, low: i32)
    requires 0 <= x < 0x1_0000_0000_0000_0000
    requires high == ToI32(WrapU32(WrapU64(x) / 0x1_0000_0000)) && low == WrapI32(x)
    ensures ToU32(high) * 0x1_0000_0000 + ToU32(low) == x
  {
    var q := x / 0x1_0000_0000;
    assert 0 <= q < 0x1_0000_0000 && WrapU64(x) == x && WrapU32(q) == q;
    hide WrapU64, WrapU32, WrapI32;
    LowWord(x);
  }

  lemma LowWord(x: int)
    ensures ToU32(WrapI32(x)) == x % 0x1_0000_0000
  {
    var q, r := x / 0x1_0000_0000, x % 0x1_0000_0000;
    WrapUnique(x, ToI32(r), if r < 0x8000_0000 then q else q + 1);
  }

  /** The high and low results together are the whole product, for each choice of signs. */
  lemma MultiplyExact(a: i32, b: i32)
    ensures E.Alu(MULH, a, b).value * 0x1_0000_0000 + ToU32(E.Alu(MUL, a, b).value) == a * b
    ensures E.Alu(MULHSU, a, b).value * 0x1_0000_0000 + ToU32(E.Alu(MUL, a, b).value) == a * ToU32(b)
    ensures ToU32(E.Alu(MULHU, a, b).value) * 0x1_0000_0000 + ToU32(E.Alu(MUL, a, b).value) == ToU32(a) * ToU32(b)
  {
    hide WrapI64, WrapU64, WrapU32, ToI32;
    ProductBound(a, b, 0x8000_0000, 0x8000_0000);
    ProductBound(a, ToU32(b), 0x8000_0000, 0xFFFF_FFFF);
    ProductMonotone(ToU32(a), ToU32(b), 0xFFFF_FFFF, 0xFFFF_FFFF);
    LowProduct(a, b);
    HighLow(a * b, E.Alu(MULH, a, b).value, E.Alu(MUL, a, b).value);
    HighLow(a * ToU32(b), E.Alu(MULHSU, a, b).value, E.Alu(MUL, a, b).value);
    HighLowUnsigned(ToU32(a) * ToU32(b), E.Alu(MULHU, a, b).value, E.Alu(MUL, a, b).value);
  }

  lemma LowProduct(a: i32, b: i32)
    ensures WrapI32(a * ToU32(b)) == WrapI32(a * b) == WrapI32(ToU32(a) * ToU32(b))
  {
    var j, k := if a < 0 then 1 else 0, if b < 0 then 1 else 0;
    ShiftedSum(b, k, a);
    ShiftedSum(a, j, ToU32(b));
    Congruent(a * ToU32(b), a * b, k * a);
    Congruent(ToU32(a) * ToU32(b), a * ToU32(b), j * ToU32(b));
  }

  /**
    Division with remainder gives back the dividend for every pair of operands, with the results that the
    standard fixes for a zero divisor and for the one signed overflow.
   */
  lemma DivideExact(a: i32, b: i32)
    ensures WrapI32(b * E.Alu(DIV, a, b).value + E.Alu(REM, a, b).value) == a
    ensures b == 0 ==> E.Alu(DIV, a, b).value == -1 && E.Alu(REM, a, b).value == a
    ensures a == -0x8000_0000 && b == -1 ==> E.Alu(DIV, a, b).value == a && E.Alu(REM, a, b).value == 0
    ensures b != 0 ==> Reference.Magnitude(E.Alu(REM, a, b).value) < Reference.Magnitude(b)
    ensures b != 0 && E.Alu(REM, a, b).value != 0 ==> (E.Alu(REM, a, b).value < 0 <==> a < 0)
  {
    hide TruncDiv, WrapI32;
    if b == 0 {
      Unsigned(a);
    } else {
      SignedDivision(a, b, TruncDiv(a, b));
    }
  }

  lemma SignedDivision(a: i32, b: i32, q: int)
    requires b != 0 && q == TruncDiv(a, b)
    ensures WrapI32(b * WrapI32(q) + WrapI32(a - b * q)) == a
    ensures a == -0x8000_0000 && b == -1 ==> WrapI32(q) == a && WrapI32(a - b * q) == 0
    ensures Reference.Magnitude(WrapI32(a - b * q)) < Reference.Magnitude(b)
    ensures WrapI32(a - b * q) != 0 ==> (WrapI32(a - b * q) < 0 <==> a < 0)
  {
    RemainderSame(a, b);
    RemainderSmall(a, b);
    Unsigned(a - b * q);
    Unsigned(a);
    QuotientRange(a, b, q);
    if !(a == -0x8000_0000 && b == -1) {
      Unsigned(q);
    }
  }

  lemma RemainderSmall(a: i32, b: i32)
    requires b != 0
    ensures Reference.Magnitude(Reference.Remainder(a, b)) < Reference.Magnitude(b)
    ensures -0x8000_0000 <= Reference.Remainder(a, b) < 0x8000_0000
    ensures Reference.Remainder(a, b) != 0 ==> (Reference.Remainder(a, b) < 0 <==> a < 0)
  {
    DivMod(Reference.Magnitude(a), Reference.Magnitude(b));
  }

  lemma QuotientRange(a: i32, b: i32, q: int)
    requires b != 0 && q == TruncDiv(a, b)
    ensures if a == -0x8000_0000 && b == -1 then q == 0x8000_0000 else -0x8000_0000 <= q < 0x8000_0000
  {
    QuotientSame(a, b);
    var p, d := Reference.Magnitude(a), Reference.Magnitude(b);
    ShiftedInRange(p, d);
    if d >= 2 {
      HalfAtMost(p, d);
    }
  }

  lemma HalfAtMost(p: nat, d: nat)
    requires d >= 2
    ensures 2 * (p / d) <= p
  {
    ProductMonotone(p / d, 2, p / d, d);
  }

  /** Unsigned division is exact, and a zero divisor gives the largest value and the dividend. */
  lemma DivideUnsignedExact(a: i32, b: i32)
    ensures WrapU32(ToU32(b) * ToU32(E.Alu(DIVU, a, b).value) + ToU32(E.Alu(REMU, a, b).value)) == ToU32(a)
    ensures b == 0 ==> ToU32(E.Alu(DIVU, a, b).value) == 0xFFFF_FFFF && E.Alu(REMU, a, b).value == a
    ensures b != 0 ==> ToU32(E.Alu(REMU, a, b).value) < ToU32(b)
  {
    if b != 0 {
      UnsignedDivision(ToU32(a), ToU32(b));
    }
  }

  lemma Cast(u: u32)
    ensures ToU32(ToI32(WrapU32(u))) == u && WrapU32(u) == u
  {
  }

  lemma UnsignedDivision(a: u32, b: u32)
    requires b != 0
    ensures ToU32(ToI32(WrapU32(a / b))) == a / b && ToU32(ToI32(WrapU32(a % b))) == a % b
    ensures WrapU32(b * (a / b) + a % b) == a && a % b < b
  {
    hide ToU32, ToI32, WrapU32;
    DivMod(a, b);
    ShiftedInRange(a, b);
    CastBoth(a, b, a / b, a % b);
  }

  lemma CastBoth(a: u32, b: u32, q: int, r: int)
    requires 0 <= q <= a && 0 <= r < b && a == b * q + r
    ensures ToU32(ToI32(WrapU32(q))) == q && ToU32(ToI32(WrapU32(r))) == r && WrapU32(b * q + r) == a
  {
    hide ToU32, ToI32, WrapU32;
    Cast(q);
    Cast(r);
    Cast(a);
  }
}
