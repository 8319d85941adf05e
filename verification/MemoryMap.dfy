/**
  Memory as a map from addresses to bytes (src/interpreter/memory.rs): what a store changes, what a later
  load returns, and why RAM must not be longer than half of the address space.
 */
module MemoryMap {
  import opened Wrappers
  import opened Words
  import opened Machines
  import opened MemoryModel
  import opened MemoryProofs
  import opened Exec
  import opened Equivalence
  import Arithmetic
  import R = Riscv
  import Ref = Reference

  /**
    A store succeeds exactly when it lies in RAM; afterwards each address holds the last byte written to it,
    and code is as it was.
   */
  lemma StoreUpdatesMap(code: Memory, ram: Memory, a: u32, data: Memory)
    requires Fits(code, ram) && 0 < |data| <= 4
    ensures StoreBytes(ram, a, data).Success? <==> RAM_OFFSET <= a && a - RAM_OFFSET + |data| <= |ram|
    ensures StoreBytes(ram, a, data).Success? ==>
              forall i: int :: Ref.ByteAt(code, StoreBytes(ram, a, data).value, i)
                            == if a <= i < a + |data| then Some(data[i - a]) else Ref.ByteAt(code, ram, i)
  {
    StoreRange(ram, a, |data|);
  }

  /** A load or a store that fails reports the end of the range, as an offset in the region that was chosen. */
  lemma FaultReportsEnd(code: Memory, ram: Memory, a: u32, data: Memory)
    requires Fits(code, ram) && 0 < |data| <= 4
    ensures var loaded := LoadBytes(code, ram, a, |data|);
            loaded.Failure? ==>
              loaded.error == InvalidMemoryAddress((if a >= RAM_OFFSET then a - RAM_OFFSET else a) + |data|)
    ensures var stored := StoreBytes(ram, a, data);
            stored.Failure? ==>
              stored.error
              == InvalidMemoryAddress(WrapU32((if a >= RAM_OFFSET then a - RAM_OFFSET else a + RAM_OFFSET) + |data|))
  {
    assert WrapU32(a - RAM_OFFSET) == if a >= RAM_OFFSET then a - RAM_OFFSET else a + RAM_OFFSET;
  }

  /**
    Stores subtract `RAM_OFFSET` with wrap-around and do not ask for the address to be in the RAM region:
    addresses below it are kept from RAM only by RAM being short enough.
   */
  lemma LowStoresFail(ram: Memory, n: nat)
    requires |ram| <= USIZE_MAX
    ensures (forall a: u32, data: Memory | a < RAM_OFFSET && |data| == n :: StoreBytes(ram, a, data).Failure?)
       <==> |ram| < RAM_OFFSET + n
  {
    if |ram| >= RAM_OFFSET + n {
      var data: Memory := seq(n, _ => 0);
      assert StoreBytes(ram, 0, data).Success?;
    }
  }

  lemma ByteOfLow(v: nat)
    ensures Ref.ByteValue(Ref.LowByte(v)) == v % 0x100
  {
    hide Nat, Word;
    Words.NatWord(v % 0x100);
    LowByteBits(v % 0x100, Word(v % 0x100), Ref.LowByte(v));
  }

  function Power256(n: nat): (p: nat)
    ensures p > 0
  {
    if n == 0 then 1 else 0x100 * Power256(n - 1)
  }

  lemma DigitStep(v: nat, p: nat)
    requires p > 0
    ensures v % (0x100 * p) == v % 0x100 + 0x100 * ((v / 0x100) % p)
  {
    var q, r := v / 0x100, v % 0x100;
    var s, t := q / p, q % p;
    assert v == 0x100 * q + r && q == p * s + t;
    Regroup(p, s, t, r);
    Unique(v, 0x100 * p, s, r + 0x100 * t);
  }

  lemma Regroup(p: int, s: int, t: int, r: int)
    ensures 0x100 * (p * s + t) + r == (0x100 * p) * s + (r + 0x100 * t)
  {
  }

  lemma Unique(v: nat, d: nat, q: nat, r: nat)
    requires d > 0 && v == d * q + r && r < d
    ensures v % d == r
  {
    Arithmetic.DivisionUnique(v, d, q, r);
  }

  lemma {:induction false} ReadPast(code: Memory, ram: Memory, i: nat, b: bv8, a: int, n: nat)
    requires i < |ram| && i + RAM_OFFSET < a
    ensures Ref.Read(code, ram[i := b], a, n) == Ref.Read(code, ram, a, n)
    decreases n
  {
    if n > 0 {
      ReadPast(code, ram, i, b, a + 1, n - 1);
    }
  }

  lemma ReadFirst(code: Memory, rest: Memory, a: int, n: nat, b: bv8)
    requires Fits(code, rest) && n > 0 && RAM_OFFSET <= a < RAM_OFFSET + |rest|
    ensures Ref.Read(code, rest[a - RAM_OFFSET := b], a, n)
         == match Ref.Read(code, rest, a + 1, n - 1) case Some(v) => Some(Ref.ByteValue(b)
             + 0x100 * v) case None => None
  {
    hide Ref.ByteValue;
    ReadPast(code, rest, a - RAM_OFFSET, b, a + 1, n - 1);
  }

  /** Reading back what was written gives its low bytes. */
  lemma {:induction false} ReadWritten(code: Memory, ram: Memory, a: int, n: nat, v: nat)
    requires Fits(code, ram) && Ref.Writable(ram, a, n)
    ensures Ref.Read(code, Ref.Written(ram, a, n, v), a, n) == Some(v % Power256(n))
    decreases n
  {
    hide Ref.LowByte, Ref.ByteValue, Ref.ByteAt;
    if n > 0 {
      ReadWritten(code, ram, a + 1, n - 1, v / 0x100);
      ReadFirst(code, Ref.Written(ram, a + 1, n - 1, v / 0x100), a, n, Ref.LowByte(v));
      ByteOfLow(v);
      DigitStep(v, Power256(n - 1));
    }
  }

  /** The value that a load of `k` gives when the low bytes of `value` are in memory. */
  function Extended(k: R.LoadKind, value: i32): i32 {
    match k
    case LB => (value + 0x80) % 0x100 - 0x80
    case LH => (value + 0x8000) % 0x1_0000 - 0x8000
    case LW => value
    case LBU => value % 0x100
    case LHU => value % 0x1_0000
  }

  lemma Powers256()
    ensures Power256(1) == 0x100 && Power256(2) == 0x1_0000 && Power256(4) == 0x1_0000_0000
  {
    assert Power256(2) == 0x1_0000;
    assert Power256(3) == 0x100_0000;
  }

  lemma LowPart(value: i32)
    ensures ToU32(value) % 0x100 == value % 0x100 && ToU32(value) % 0x1_0000 == value % 0x1_0000
  {
  }

  lemma SignedPart(value: i32, low: int, half: int)
    requires half > 0 && low == value % (2 * half)
    ensures (value + half) % (2 * half) - half == if low >= half then low - 2 * half else low
  {
    var q := value / (2 * half);
    assert value == (2 * half) * q + low;
    if low >= half {
      SplitQuotient(q, half);
      Arithmetic.DivisionUnique(value + half, 2 * half, q + 1, low - half);
    } else {
      Arithmetic.DivisionUnique(value + half, 2 * half, q, low + half);
    }
  }

  lemma SplitQuotient(q: int, half: int)
    ensures (2 * half) * (q + 1) == (2 * half) * q + 2 * half
  {
  }

  lemma ExtendedByte(value: i32)
    ensures Ref.Loaded(R.LB, value % 0x100) == Extended(R.LB, value)
    ensures Ref.Loaded(R.LBU, value % 0x100) == Extended(R.LBU, value)
  {
    hide Pow2, Ref.Low32;
    Powers();
    SignedPart(value, value % 0x100, 0x80);
    Small(Extended(R.LB, value));
    Small(value % 0x100);
  }

  lemma ExtendedHalf(value: i32)
    ensures Ref.Loaded(R.LH, value % 0x1_0000) == Extended(R.LH, value)
    ensures Ref.Loaded(R.LHU, value % 0x1_0000) == Extended(R.LHU, value)
  {
    hide Pow2, Ref.Low32;
    Powers();
    SignedPart(value, value % 0x1_0000, 0x8000);
    Small(Extended(R.LH, value));
    Small(value % 0x1_0000);
  }

  lemma ExtendedWord(value: i32)
    ensures Ref.Loaded(R.LW, ToU32(value) % 0x1_0000_0000) == value
  {
    hide Pow2;
    Powers();
  }

  lemma ExtendedLow(k: R.LoadKind, value: i32)
    ensures Ref.Loaded(k, ToU32(value) % Power256(Ref.LoadWidth(k))) == Extended(k, value)
  {
    hide Power256, ToU32, Ref.Loaded;
    Powers256();
    LowPart(value);
    ExtendedByte(value);
    ExtendedHalf(value);
    ExtendedWord(value);
  }

  /** A load of the same width after a store gives back the stored bytes, sign- or zero-extended. */
  lemma LoadAfterStore(code: Memory, ram: Memory, a: u32, s: R.StoreKind, k: R.LoadKind, value: i32)
    requires Fits(code, ram) && Ref.LoadWidth(k) == Ref.StoreWidth(s)
    ensures var stored := StoreBytes(ram, a, StoreData(StoreFuncOf(s), value));
            stored.Success? ==> LoadValue(LoadFuncOf(k), code, stored.value, a) == Success(Extended(k, value))
  {
    hide StoreBytes, StoreData, LoadValue, Extended, Ref.Read, Ref.Written, Ref.Loaded, Power256;
    StoreSame(ram, a, s, value);
    var n := Ref.StoreWidth(s);
    if Ref.Writable(ram, a, n) {
      ReadWritten(code, ram, a, n, ToU32(value));
      LoadValueSame(k, code, Ref.Written(ram, a, n, ToU32(value)), a);
      ExtendedLow(k, value);
    }
  }
}
