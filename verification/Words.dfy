/**
  Fixed-width integers.

  Register values, addresses and the program counter are mathematical integers kept in the range of
  Rust's `i32` or `u32`; instruction words, CSRs and bytes are bit-vectors.  `UInt`, `Signed`, `Word`
  and `Bits` are Rust's `as` casts between the two views.
 */
module Words {

  type u32 = x: int | 0 <= x < 0x1_0000_0000
  type i32 = x: int | -0x8000_0000 <= x < 0x8000_0000

  /** `w as u16 as u32`. */
  function Low16(w: bv32): bv32 { w & 0xFFFF }

  /** Bit `k` of `w`, as a number. */
  function Bit(w: bv32, k: bv6): (b: int)
    requires k < 32
    ensures 0 <= b <= 1
  {
    if (w >> k) & 1 == 1 then 1 else 0
  }

  /** The number that the bit pattern `w` stands for, read most significant bit first. */
  function Nat(w: bv32): nat
    decreases w
  {
    if w == 0 then 0 else 2 * Nat(w >> 1) + (if w & 1 == 1 then 1 else 0)
  }

  /** The low eight bits of `w`, as a number. */
  function Octet(w: bv32): (b: int)
    ensures 0 <= b < 0x100
  {
    Bit(w, 0) + 2 * Bit(w, 1) + 4 * Bit(w, 2) + 8 * Bit(w, 3)
    + 16 * Bit(w, 4) + 32 * Bit(w, 5) + 64 * Bit(w, 6) + 128 * Bit(w, 7)
  }

  lemma NatStep(v: bv32, h: bv32, b: int)
    requires v >> 1 == h && b == (if v & 1 == 1 then 1 else 0)
    ensures Nat(v) == 2 * Nat(h) + b
  {
  }

  lemma NatStep0(w: bv32) ensures Nat(w >> 0) == 2 * Nat(w >> 1) + Bit(w, 0) { NatStep(w >> 0, w >> 1, Bit(w, 0)); }
  lemma NatStep1(w: bv32) ensures Nat(w >> 1) == 2 * Nat(w >> 2) + Bit(w, 1) { NatStep(w >> 1, w >> 2, Bit(w, 1)); }
  lemma NatStep2(w: bv32) ensures Nat(w >> 2) == 2 * Nat(w >> 3) + Bit(w, 2) { NatStep(w >> 2, w >> 3, Bit(w, 2)); }
  lemma NatStep3(w: bv32) ensures Nat(w >> 3) == 2 * Nat(w >> 4) + Bit(w, 3) { NatStep(w >> 3, w >> 4, Bit(w, 3)); }
  lemma NatStep4(w: bv32) ensures Nat(w >> 4) == 2 * Nat(w >> 5) + Bit(w, 4) { NatStep(w >> 4, w >> 5, Bit(w, 4)); }
  lemma NatStep5(w: bv32) ensures Nat(w >> 5) == 2 * Nat(w >> 6) + Bit(w, 5) { NatStep(w >> 5, w >> 6, Bit(w, 5)); }
  lemma NatStep6(w: bv32) ensures Nat(w >> 6) == 2 * Nat(w >> 7) + Bit(w, 6) { NatStep(w >> 6, w >> 7, Bit(w, 6)); }
  lemma NatStep7(w: bv32) ensures Nat(w >> 7) == 2 * Nat(w >> 8) + Bit(w, 7) { NatStep(w >> 7, w >> 8, Bit(w, 7)); }

  lemma NatOctetShifted(w: bv32)
    ensures Nat(w >> 0) == Octet(w) + 0x100 * Nat(w >> 8)
  {
    NatStep0(w); NatStep1(w); NatStep2(w); NatStep3(w);
    NatStep4(w); NatStep5(w); NatStep6(w); NatStep7(w);
  }

  lemma NatOctet(w: bv32, v: bv32)
    requires w == w >> 0 && v == w >> 8
    ensures Nat(w) == Octet(w) + 0x100 * Nat(v)
  {
    NatOctetShifted(w);
  }

  lemma NatOctets1(w: bv32) ensures Nat(w >> 8) == Octet(w >> 8) + 0x100 * Nat(w >> 16) { NatOctet(w >> 8, w >> 16); }
  lemma NatOctets2(w: bv32) ensures Nat(w >> 16) == Octet(w >> 16)
      + 0x100 * Nat(w >> 24) { NatOctet(w >> 16, w >> 24); }
  lemma NatOctets3(w: bv32) ensures Nat(w >> 24) == Octet(w >> 24) { NatOctet(w >> 24, 0); }

  /** `Nat` is the usual sum of weighted bits. */
  lemma NatSum(w: bv32)
    ensures Nat(w) == Octet(w) + 0x100 * Octet(w >> 8) + 0x1_0000 * Octet(w >> 16) + 0x100_0000 * Octet(w >> 24)
    ensures Nat(w) < 0x1_0000_0000
  {
    hide Nat, Octet;
    NatOctet(w, w >> 8);
    NatOctets1(w); NatOctets2(w); NatOctets3(w);
  }

  /** `w as u32`. */
  function UInt(w: bv32): u32 {
    NatSum(w);
    Nat(w)
  }

  /** `w as i32`: two's complement. */
  function Signed(w: bv32): i32 {
    ToI32(UInt(w))
  }

  /** `u as i32`. */
  function ToI32(u: u32): i32 {
    if u < 0x8000_0000 then u else u - 0x1_0000_0000
  }

  /** `x as u32`. */
  function ToU32(x: i32): u32 {
    if x < 0 then x + 0x1_0000_0000 else x
  }

  /** `h` with `bit` added at the least significant end. */
  function AppendBit(h: bv32, bit: bool): bv32 {
    if bit then (h << 1) | 1 else h << 1
  }

  /** The bit pattern of a number. */
  function Word(u: u32): bv32
    decreases u
  {
    if u == 0 then 0 else AppendBit(Word(u / 2), u % 2 == 1)
  }

  /** The bit pattern of a register value. */
  function Bits(x: i32): bv32 {
    Word(ToU32(x))
  }

  lemma TopBitBits(w: bv32)
    requires w >= 0x8000_0000
    ensures Bit(w >> 24, 7) == 1
  {
  }

  lemma TopBit(w: bv32)
    ensures w >= 0x8000_0000 ==> Nat(w) >= 0x8000_0000
  {
    if w >= 0x8000_0000 {
      NatSum(w);
      TopBitBits(w);
    }
  }

  lemma AppendZero(h: bv32, w: bv32)
    requires h < 0x8000_0000 && w == h << 1
    ensures w >> 1 == h && w & 1 == 0
  {
  }

  lemma AppendOne(h: bv32, w: bv32)
    requires h < 0x8000_0000 && w == (h << 1) | 1
    ensures w >> 1 == h && w & 1 == 1
  {
  }

  lemma NatAppend(h: bv32, bit: bool)
    requires h < 0x8000_0000
    ensures Nat(AppendBit(h, bit)) == 2 * Nat(h) + (if bit then 1 else 0)
  {
    hide Nat;
    var w := AppendBit(h, bit);
    if bit {
      AppendOne(h, w);
      NatStep(w, h, 1);
    } else {
      AppendZero(h, w);
      NatStep(w, h, 0);
    }
  }

  lemma WordStep(u: u32, h: bv32)
    requires u > 0 && h == Word(u / 2) && Nat(h) == u / 2
    ensures Nat(Word(u)) == u
  {
    hide Nat, AppendBit;
    TopBit(h);
    NatAppend(h, u % 2 == 1);
  }

  lemma {:induction false} NatWord(u: u32)
    ensures Nat(Word(u)) == u
    decreases u
  {
    if u > 0 {
      NatWord(u / 2);
      WordStep(u, Word(u / 2));
    }
  }

  lemma {:induction false} NatZero(a: bv32)
    requires Nat(a) == 0
    ensures a == 0
    decreases a
  {
    if a != 0 {
      NatZero(a >> 1);
    }
  }

  lemma SameHalves(a: bv32, b: bv32)
    requires a >> 1 == b >> 1 && (a & 1 == 1 <==> b & 1 == 1)
    ensures a == b
  {
  }

  lemma NatHalves(a: bv32, b: bv32)
    requires Nat(a) == Nat(b) > 0
    ensures Nat(a >> 1) == Nat(b >> 1) < Nat(a)
    ensures a & 1 == 1 <==> b & 1 == 1
  {
  }

  lemma {:induction false} NatInjective(a: bv32, b: bv32)
    requires Nat(a) == Nat(b)
    ensures a == b
    decreases Nat(a)
  {
    if Nat(a) == 0 {
      NatZero(a);
      NatZero(b);
    } else {
      NatHalves(a, b);
      NatInjective(a >> 1, b >> 1);
      SameHalves(a, b);
    }
  }

  /** Casting a pattern to a number and back, in either order, changes nothing. */
  lemma CastsInvert(w: bv32, x: i32)
    ensures Bits(Signed(w)) == w
    ensures Signed(Bits(x)) == x
  {
    hide Nat, Word;
    NatWord(UInt(w));
    NatInjective(Word(UInt(w)), w);
    NatWord(ToU32(x));
  }

  /** Rust's wrapping arithmetic: the low 32 bits of an integer. */
  function WrapU32(x: int): u32 {
    x % 0x1_0000_0000
  }

  function WrapI32(x: int): i32 {
    (x + 0x8000_0000) % 0x1_0000_0000 - 0x8000_0000
  }

  function WrapI64(x: int): (r: int)
    ensures -0x8000_0000_0000_0000 <= r < 0x8000_0000_0000_0000
  {
    (x + 0x8000_0000_0000_0000) % 0x1_0000_0000_0000_0000 - 0x8000_0000_0000_0000
  }

  function WrapU64(x: int): (r: int)
    ensures 0 <= r < 0x1_0000_0000_0000_0000
  {
    x % 0x1_0000_0000_0000_0000
  }

  function And(a: i32, b: i32): i32 { Signed(Bits(a) & Bits(b)) }

  function Or(a: i32, b: i32): i32 { Signed(Bits(a) | Bits(b)) }

  function Xor(a: i32, b: i32): i32 { Signed(Bits(a) ^ Bits(b)) }

  function Pow2(n: nat): (p: nat)
    ensures p > 0
  {
    if n == 0 then 1 else 2 * Pow2(n - 1)
  }

  /** `>>` on `u32` and on `i32`. */
  function ShiftRightLogical(a: i32, n: nat): i32
  {
    ShiftedInRange(ToU32(a), Pow2(n));
    ToI32(ToU32(a) / Pow2(n))
  }

  function ShiftRightArithmetic(a: i32, n: nat): i32
  {
    ShiftedInRange(a, Pow2(n));
    a / Pow2(n)
  }

  lemma {:induction false} ProductNonNegative(x: nat, y: nat)
    ensures x * y >= 0
  {
  }

  lemma Distribute(x: int, y: int)
    ensures x * (y - 1) == x * y - x
    ensures (-x - 1) * (y - 1) == x - x * y - y + 1
  {
  }

  lemma Product(q: int, p: int)
    requires p > 0
    ensures q >= 0 ==> q * p >= q
    ensures q < 0 ==> q * p <= q - (p - 1)
  {
    Distribute(q, p);
    if q >= 0 {
      ProductNonNegative(q, p - 1);
    } else {
      ProductNonNegative(-q - 1, p - 1);
    }
  }

  lemma Quotient(a: int, p: int, q: int, product: int)
    requires 0 <= a - product < p
    requires q >= 0 ==> product >= q
    requires q < 0 ==> product <= q - (p - 1)
    ensures a >= 0 ==> 0 <= q <= a
    ensures a < 0 ==> a <= q < 0
  {
  }

  lemma ShiftedInRange(a: int, p: int)
    requires p > 0
    ensures a >= 0 ==> 0 <= a / p <= a
    ensures a < 0 ==> a <= a / p < 0
  {
    Product(a / p, p);
    Quotient(a, p, a / p, (a / p) * p);
  }

  /** `a / b` rounded towards zero, as Rust and RISC-V divide. */
  function TruncDiv(a: int, b: int): int
    requires b != 0
  {
    if a >= 0 then a / b else -((-a) / b)
  }

  /** The low byte, and the low halfword, of `w` with its sign extended: `as i8 as i32`, `as i16 as i32`. */
  function AsI8(w: bv32): bv32 {
    if w & 0x80 != 0 then w | 0xFFFF_FF00 else w & 0xFF
  }

  function AsI16(w: bv32): bv32 {
    if w & 0x8000 != 0 then w | 0xFFFF_0000 else w & 0xFFFF
  }

  /** `((w as i32) >> n) as u32`: shift right, copying the sign bit. */
  function Sar(w: bv32, n: bv6): bv32
    requires n < 32
  {
    if w & 0x8000_0000 != 0 then !((!w) >> n) else w >> n
  }

  /** The two's complement value of a 32-bit pattern whose top bits copy bit `k`, in weighted bits. */
  lemma SignedSum(w: bv32)
    ensures Signed(w) == Octet(w) + 0x100 * Octet(w >> 8) + 0x1_0000 * Octet(w >> 16) + 0x100_0000 * Octet(w >> 24)
                         - 0x1_0000_0000 * Bit(w >> 24, 7)
  {
    NatSum(w);
  }

  /** The number of a register field. */
  function Reg(r: bv8): nat {
    Nat(r as bv32)
  }

  lemma RegBits(w: bv32)
    requires w < 32
    ensures Bit(w, 5) == Bit(w, 6) == Bit(w, 7) == 0 && w >> 8 == 0
  {
  }

  lemma SmallNat(w: bv32)
    requires w < 32
    ensures Nat(w) < 32
  {
    hide Bit;
    RegBits(w);
    NatOctet(w, 0);
  }

  lemma RegBound(r: bv8)
    ensures r < 32 ==> Reg(r) < 32
    ensures Reg(r) == 0 <==> r == 0
  {
    if r < 32 {
      SmallNat(r as bv32);
    }
    if Reg(r) == 0 {
      NatZero(r as bv32);
    }
  }
}
