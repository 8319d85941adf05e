/**
  Memory: the two slices with their range checks are the address map of the reference machine, and the
  byte-level loads and stores read and write the values that it defines.
 */
module MemoryProofs {
  import opened Wrappers
  import opened Words
  import opened Machines
  import opened MemoryModel
  import E = Exec
  import R = Riscv
  import Reference

  /** Code stays below the RAM region, and RAM ends within the address space. */
  predicate Fits(code: Memory, ram: Memory) {
    |code| < RAM_OFFSET && |ram| <= RAM_OFFSET
  }

  /** `n` bytes from `a` on lie in one region. */
  predicate Inside(code: Memory, ram: Memory, a: u32, n: nat) {
    if a < RAM_OFFSET then a + n <= |code| else a - RAM_OFFSET + n <= |ram|
  }

  /** A range is inside one region exactly when every address in it is mapped. */
  lemma InsideMapped(code: Memory, ram: Memory, a: u32, n: nat)
    requires Fits(code, ram) && 0 < n
    ensures Inside(code, ram, a, n) <==> forall i | a <= i < a + n :: Reference.ByteAt(code, ram, i).Some?
  {
    if !Inside(code, ram, a, n) {
      if a < RAM_OFFSET <= a + (n - 1) {
        assert Reference.ByteAt(code, ram, RAM_OFFSET - 1).None?;
      } else {
        assert Reference.ByteAt(code, ram, a + (n - 1)).None?;
      }
    }
  }

  /** A load succeeds exactly when every byte is mapped, and returns the mapped bytes. */
  lemma LoadBytesMapped(code: Memory, ram: Memory, a: u32, n: nat)
    requires Fits(code, ram) && 0 < n <= 4
    ensures LoadBytes(code, ram, a, n).Success? <==> Inside(code, ram, a, n)
    ensures Inside(code, ram, a, n) ==>
              forall i | a <= i < a + n :: Reference.ByteAt(code, ram, i)
                  == Some(LoadBytes(code, ram, a, n).value[i - a])
  {
  }

  lemma SameOctet(x: bv32, y: bv32)
    requires x & 0xFF == y & 0xFF
    ensures Octet(x) == Octet(y)
  {
  }

  lemma NatByte(b: bv8)
    ensures Nat(b as bv32) == Octet(b as bv32)
  {
    assert b as bv32 >> 8 == 0;
    NatOctet(b as bv32, 0);
  }

  lemma NatCons(b: bv8, w: bv32, rest: bv32)
    requires w >> 8 == rest && w & 0xFF == b as bv32
    ensures Nat(w) == Nat(b as bv32) + 0x100 * Nat(rest)
  {
    ConsBits(b, w);
    NatOctet(w, rest);
    SameOctet(w, b as bv32);
    NatByte(b);
  }

  lemma ConsBits(b: bv8, w: bv32)
    requires w & 0xFF == b as bv32
    ensures w & 0xFF == b as bv32 & 0xFF && w == w >> 0
  {
  }

  function FromBytes3(b0: bv8, b1: bv8, b2: bv8): bv32 {
    b0 as bv32 | (b1 as bv32 << 8) | (b2 as bv32 << 16)
  }

  lemma BytesBits(b0: bv8, b1: bv8, b2: bv8, b3: bv8)
    ensures FromBytes4(b0, b1, b2, b3) >> 8 == FromBytes3(b1, b2, b3)
    ensures FromBytes4(b0, b1, b2, b3) & 0xFF == b0 as bv32
    ensures FromBytes3(b1, b2, b3) >> 8 == FromBytes2(b2, b3)
    ensures FromBytes3(b1, b2, b3) & 0xFF == b1 as bv32
  {
  }

  lemma HalfBits(b0: bv8, b1: bv8)
    ensures FromBytes2(b0, b1) >> 8 == b1 as bv32 && FromBytes2(b0, b1) & 0xFF == b0 as bv32
  {
  }

  lemma NatHalf(b0: bv8, b1: bv8)
    ensures Nat(FromBytes2(b0, b1)) == Nat(b0 as bv32) + 0x100 * Nat(b1 as bv32)
  {
    hide Nat, FromBytes2;
    HalfBits(b0, b1);
    NatCons(b0, FromBytes2(b0, b1), b1 as bv32);
  }

  lemma NatWordBytes(b0: bv8, b1: bv8, b2: bv8, b3: bv8, w: bv32, rest: bv32, half: bv32)
    requires w >> 8 == rest && w & 0xFF == b0 as bv32
    requires rest >> 8 == half && rest & 0xFF == b1 as bv32
    requires half == FromBytes2(b2, b3)
    ensures Nat(w) == Nat(b0 as bv32) + 0x100 * Nat(b1 as bv32) + 0x1_0000 * Nat(b2 as bv32)
             + 0x100_0000 * Nat(b3 as bv32)
  {
    hide Nat, FromBytes2;
    NatCons(b0, w, rest);
    NatCons(b1, rest, half);
    NatHalf(b2, b3);
  }

  lemma NatWord(b0: bv8, b1: bv8, b2: bv8, b3: bv8)
    ensures Nat(FromBytes4(b0, b1, b2, b3))
         == Nat(b0 as bv32) + 0x100 * Nat(b1 as bv32) + 0x1_0000 * Nat(b2 as bv32) + 0x100_0000 * Nat(b3 as bv32)
  {
    hide Nat, FromBytes2, FromBytes3, FromBytes4;
    BytesBits(b0, b1, b2, b3);
    NatWordBytes(b0, b1, b2, b3, FromBytes4(b0, b1, b2, b3), FromBytes3(b1, b2, b3), FromBytes2(b2, b3));
  }

  lemma Read1(code: Memory, ram: Memory, a: int)
    ensures Reference.Read(code, ram, a, 1)
         == match Reference.ByteAt(code, ram, a) case Some(b) => Some(Nat(b as bv32)) case None => None
  {
    hide Nat;
    assert Reference.Read(code, ram, a + 1, 0) == Some(0);
  }

  lemma ReadStep(code: Memory, ram: Memory, a: int, n: nat, next: int)
    requires n > 0 && next == a + 1
    ensures Reference.Read(code, ram, a, n)
         == match (Reference.ByteAt(code, ram, a), Reference.Read(code, ram, next, n - 1))
            case (Some(b), Some(v)) => Some(Nat(b as bv32) + 0x100 * v)
            case _ => None
  {
    hide Nat, Reference.ByteAt;
  }

  lemma Read2(code: Memory, ram: Memory, a: int)
    ensures Reference.Read(code, ram, a, 2)
         == match (Reference.ByteAt(code, ram, a), Reference.ByteAt(code, ram, a + 1))
            case (Some(b0), Some(b1)) => Some(Nat(b0 as bv32) + 0x100 * Nat(b1 as bv32))
            case _ => None
  {
    hide Nat, Reference.ByteAt, Reference.Read;
    ReadStep(code, ram, a, 2, a + 1);
    Read1(code, ram, a + 1);
  }

  lemma Read4(code: Memory, ram: Memory, a: int)
    ensures Reference.Read(code, ram, a, 4)
         == match (Reference.ByteAt(code, ram, a), Reference.ByteAt(code, ram, a + 1),
                   Reference.ByteAt(code, ram, a + 2), Reference.ByteAt(code, ram, a + 3))
            case (Some(b0), Some(b1), Some(b2), Some(b3)) =>
              Some(Nat(b0 as bv32) + 0x100 * Nat(b1 as bv32) + 0x1_0000 * Nat(b2 as bv32)
                  + 0x100_0000 * Nat(b3 as bv32))
            case _ => None
  {
    hide Nat, Reference.ByteAt, Reference.Read;
    ReadStep(code, ram, a, 4, a + 1);
    ReadStep(code, ram, a + 1, 3, a + 2);
    Read2(code, ram, a + 2);
  }

  lemma LoadByteSame(code: Memory, ram: Memory, a: u32)
    requires Fits(code, ram)
    ensures LoadByte(code, ram, a).Success? <==> Reference.Read(code, ram, a, 1).Some?
    ensures LoadByte(code, ram, a).Success? ==>
              Reference.Read(code, ram, a, 1) == Some(Nat(LoadByte(code, ram, a).value))
  {
    hide Nat, Reference.ByteAt;
    InsideMapped(code, ram, a, 1);
    LoadBytesMapped(code, ram, a, 1);
    Read1(code, ram, a);
  }

  lemma LoadHalfSame(code: Memory, ram: Memory, a: u32)
    requires Fits(code, ram)
    ensures LoadHalf(code, ram, a).Success? <==> Reference.Read(code, ram, a, 2).Some?
    ensures LoadHalf(code, ram, a).Success? ==>
              Reference.Read(code, ram, a, 2) == Some(Nat(LoadHalf(code, ram, a).value))
  {
    hide Nat, Reference.ByteAt, FromBytes2, LoadBytes, Inside, Reference.Read;
    InsideMapped(code, ram, a, 2);
    LoadBytesMapped(code, ram, a, 2);
    Read2(code, ram, a);
    if Inside(code, ram, a, 2) {
      var b := LoadBytes(code, ram, a, 2).value;
      NatHalf(b[0], b[1]);
    }
  }

  lemma LoadWordSame(code: Memory, ram: Memory, a: u32)
    requires Fits(code, ram)
    ensures LoadWord(code, ram, a).Success? <==> Reference.Read(code, ram, a, 4).Some?
    ensures LoadWord(code, ram, a).Success? ==>
              Reference.Read(code, ram, a, 4) == Some(Nat(LoadWord(code, ram, a).value))
  {
    hide Nat, Reference.ByteAt, FromBytes4, LoadBytes, Inside, Reference.Read;
    InsideMapped(code, ram, a, 4);
    LoadBytesMapped(code, ram, a, 4);
    Read4(code, ram, a);
    if Inside(code, ram, a, 4) {
      var b := LoadBytes(code, ram, a, 4).value;
      NatWord(b[0], b[1], b[2], b[3]);
    }
  }

  // Sign extension.

  lemma ByteSignBits(b: bv8, w: bv32)
    requires w == AsI8(b as bv32)
    ensures w & 0xFF == b as bv32 & 0xFF
    ensures Bit(w >> 24, 7) == Bit(b as bv32, 7)
  {
  }

  lemma ByteSignOctets(b: bv8, w: bv32)
    requires w == AsI8(b as bv32)
    ensures Octet(w >> 8) == Octet(w >> 16) == Octet(w >> 24) == 255 * Bit(b as bv32, 7)
  {
  }

  lemma SignedByte(b: bv8)
    ensures Signed(AsI8(b as bv32)) == Octet(b as bv32) - 0x100 * Bit(b as bv32, 7)
  {
    hide Signed, Bit, Octet, AsI8;
    var w := AsI8(b as bv32);
    SignedSum(w);
    ByteSignBits(b, w);
    ByteSignOctets(b, w);
    SameOctet(w, b as bv32);
  }

  lemma HalfSignBits(h: bv32, w: bv32)
    requires h & 0xFFFF == h && w == AsI16(h)
    ensures w & 0xFF == h & 0xFF && (w >> 8) & 0xFF == (h >> 8) & 0xFF
    ensures Bit(w >> 24, 7) == Bit(h >> 8, 7)
  {
  }

  lemma HalfSignOctets(h: bv32, w: bv32)
    requires h & 0xFFFF == h && w == AsI16(h)
    ensures Octet(w >> 16) == Octet(w >> 24) == 255 * Bit(h >> 8, 7)
  {
  }

  lemma SignedHalf(h: bv32)
    requires h & 0xFFFF == h
    ensures Signed(AsI16(h)) == Octet(h) + 0x100 * Octet(h >> 8) - 0x1_0000 * Bit(h >> 8, 7)
  {
    hide Signed, Bit, Octet, AsI16;
    var w := AsI16(h);
    SignedSum(w);
    HalfSignBits(h, w);
    HalfSignOctets(h, w);
    SameOctet(w, h);
    SameOctet(w >> 8, h >> 8);
  }

  lemma Powers()
    ensures Pow2(7) == 0x80 && Pow2(8) == 0x100 && Pow2(15) == 0x8000 && Pow2(16) == 0x1_0000
    ensures Pow2(31) == 0x8000_0000 && Pow2(32) == 0x1_0000_0000
  {
    assert Pow2(15) == 0x8000;
    assert Pow2(24) == 0x100_0000;
  }

  lemma TopOfOctet(w: bv32)
    ensures Octet(w) >= 0x80 <==> Bit(w, 7) == 1
  {
    hide Bit;
  }

  lemma LoadedByte(b: bv8)
    ensures Reference.Loaded(R.LB, Nat(b as bv32)) == Signed(AsI8(b as bv32))
    ensures Reference.Loaded(R.LBU, Nat(b as bv32)) == Signed(b as bv32)
  {
    hide Bit, Octet, Nat, Pow2, AsI8;
    Powers();
    NatByte(b);
    SignedByte(b);
    TopOfOctet(b as bv32);
  }

  lemma LoadedHalf(h: bv32)
    requires h & 0xFFFF == h
    ensures Reference.Loaded(R.LH, Nat(h)) == Signed(AsI16(h))
    ensures Reference.Loaded(R.LHU, Nat(h)) == Signed(h)
  {
    hide Bit, Octet, Nat, Pow2, AsI16;
    Powers();
    NatOfHalf(h);
    SignedHalf(h);
    TopOfOctet(h >> 8);
  }

  lemma HalfShift(h: bv32)
    requires h & 0xFFFF == h
    ensures h == h >> 0 && (h >> 8) >> 8 == 0
  {
  }

  lemma NatOfHalf(h: bv32)
    requires h & 0xFFFF == h
    ensures Nat(h) == Octet(h) + 0x100 * Octet(h >> 8)
  {
    hide Nat, Octet;
    HalfShift(h);
    NatOctet(h, h >> 8);
    NatOctets1(h);
    HalfGone(h);
  }

  lemma HalfGone(h: bv32)
    requires h & 0xFFFF == h
    ensures Nat(h >> 16) == 0
  {
    assert h >> 16 == 0;
  }

  lemma LoadedWord(w: bv32)
    ensures Reference.Loaded(R.LW, Nat(w)) == Signed(w) == Reference.Low32(Nat(w))
  {
    hide Bit, Octet, Nat, Pow2;
    Powers();
    NatSum(w);
  }

  // Stores.

  lemma LowByteBits(v: nat, w: bv32, b: bv8)
    requires Nat(w) == v && b == (w & 0xFF) as bv8
    ensures Nat(b as bv32) == v % 0x100
  {
    hide Nat, Octet;
    ByteOfWord(w, b);
    NatOctet(w, w >> 8);
    SameOctet(w, b as bv32);
    NatByte(b);
  }

  lemma ByteOfWord(w: bv32, b: bv8)
    requires b == (w & 0xFF) as bv8
    ensures w & 0xFF == b as bv32 & 0xFF && w == w >> 0
  {
  }

  lemma SameByte(b: bv8, c: bv8)
    requires Nat(b as bv32) == Nat(c as bv32)
    ensures b == c
  {
    hide Nat;
    NatInjective(b as bv32, c as bv32);
    Widened(b, c);
  }

  lemma Widened(b: bv8, c: bv8)
    requires b as bv32 == c as bv32
    ensures b == c
  {
  }

  /** The low byte of a pattern is the reference machine's low byte of its value. */
  lemma LowByteSame(v: u32, w: bv32, b: bv8)
    requires Nat(w) == v && b == (w & 0xFF) as bv8
    ensures b == Reference.LowByte(v)
  {
    hide Nat, Word;
    LowByteBits(v, w, b);
    Words.NatWord(v % 0x100);
    LowByteBits(v % 0x100, Word(v % 0x100), Reference.LowByte(v));
    SameByte(b, Reference.LowByte(v));
  }

  lemma ShiftedNat(v: u32, w: bv32, h: bv32)
    requires Nat(w) == v && w >> 8 == h
    ensures Nat(h) == v / 0x100
  {
    hide Nat, Octet;
    ShiftZero(w);
    NatOctet(w, h);
  }

  lemma ShiftZero(w: bv32)
    ensures w == w >> 0
  {
  }

  lemma ShiftChain(w: bv32)
    ensures (w >> 8) >> 8 == w >> 16 && (w >> 16) >> 8 == w >> 24
    ensures (w >> 24) as bv8 == ((w >> 24) & 0xFF) as bv8
  {
  }

  lemma DivChain(v: nat)
    ensures v / 0x100 / 0x100 == v / 0x1_0000 && v / 0x1_0000 / 0x100 == v / 0x100_0000
  {
  }

  lemma ShiftedNat16(v: u32, w: bv32)
    requires Nat(w >> 8) == v
    ensures Nat(w >> 16) == v / 0x100
  {
    hide Nat;
    ShiftChain(w);
    ShiftedNat(v, w >> 8, w >> 16);
  }

  lemma ShiftedNat24(v: u32, w: bv32)
    requires Nat(w >> 16) == v
    ensures Nat(w >> 24) == v / 0x100
  {
    hide Nat;
    ShiftChain(w);
    ShiftedNat(v, w >> 16, w >> 24);
  }

  lemma ShiftedNats(v: u32, w: bv32)
    requires Nat(w) == v
    ensures Nat(w >> 8) == v / 0x100 && Nat(w >> 16) == v / 0x1_0000 && Nat(w >> 24) == v / 0x100_0000
  {
    hide Nat;
    DivChain(v);
    ShiftedNat(v, w, w >> 8);
    ShiftedNat16(v / 0x100, w);
    ShiftedNat24(v / 0x1_0000, w);
  }

  lemma StoredBytes(v: u32, w: bv32)
    requires Nat(w) == v
    ensures ToBytes4(w) == [Reference.LowByte(v), Reference.LowByte(v / 0x100), Reference.LowByte(v / 0x1_0000),
             Reference.LowByte(v / 0x100_0000)]
    ensures ToBytes2(w) == [Reference.LowByte(v), Reference.LowByte(v / 0x100)]
    ensures ToBytes1(w) == [Reference.LowByte(v)]
  {
    hide Nat, Reference.LowByte;
    ShiftedNats(v, w);
    TopByte(w);
    LowByteSame(v, w, (w & 0xFF) as bv8);
    LowByteSame(v / 0x100, w >> 8, ((w >> 8) & 0xFF) as bv8);
    LowByteSame(v / 0x1_0000, w >> 16, ((w >> 16) & 0xFF) as bv8);
    LowByteSame(v / 0x100_0000, w >> 24, ((w >> 24) & 0xFF) as bv8);
  }

  lemma TopByte(w: bv32)
    ensures (w >> 24) as bv8 == ((w >> 24) & 0xFF) as bv8
  {
  }

  // Four writes of one byte, or one splice.

  lemma Written1(ram: Memory, a: int, v: nat)
    requires Reference.Writable(ram, a, 1)
    ensures Reference.Written(ram, a, 1, v) == ram[a - RAM_OFFSET := Reference.LowByte(v)]
  {
    hide Reference.LowByte;
    assert Reference.Written(ram, a + 1, 0, v / 0x100) == ram;
  }

  lemma WrittenStep(ram: Memory, a: int, n: nat, v: nat, next: int, rest: nat)
    requires n > 0 && Reference.Writable(ram, a, n) && next == a + 1 && rest == v / 0x100
    ensures Reference.Writable(ram, next, n - 1)
    ensures Reference.Written(ram, a, n, v)
             == Reference.Written(ram, next, n - 1, rest)[a - RAM_OFFSET := Reference.LowByte(v)]
  {
    hide Reference.LowByte;
  }

  lemma Written2(ram: Memory, a: int, v: nat)
    requires Reference.Writable(ram, a, 2)
    ensures Reference.Written(ram, a, 2, v)
         == ram[a + 1 - RAM_OFFSET := Reference.LowByte(v / 0x100)][a - RAM_OFFSET := Reference.LowByte(v)]
  {
    hide Reference.LowByte;
    WrittenStep(ram, a, 2, v, a + 1, v / 0x100);
    Written1(ram, a + 1, v / 0x100);
  }

  lemma Written4(ram: Memory, a: int, v: nat)
    requires Reference.Writable(ram, a, 4)
    ensures Reference.Written(ram, a, 4, v)
         == ram[a + 3 - RAM_OFFSET := Reference.LowByte(v / 0x100_0000)][a + 2 - RAM_OFFSET :=
             Reference.LowByte(v / 0x1_0000)]
               [a + 1 - RAM_OFFSET := Reference.LowByte(v / 0x100)][a - RAM_OFFSET := Reference.LowByte(v)]
  {
    hide Reference.LowByte, Reference.Written;
    DivChain(v);
    WrittenStep(ram, a, 4, v, a + 1, v / 0x100);
    WrittenStep(ram, a + 1, 3, v / 0x100, a + 2, v / 0x1_0000);
    Written2(ram, a + 2, v / 0x1_0000);
  }

  lemma Splice(ram: Memory, i: nat, data: Memory)
    requires i + |data| <= |ram|
    ensures |data| == 1 ==> ram[..i] + data + ram[i + 1..] == ram[i := data[0]]
    ensures |data| == 2 ==> ram[..i] + data + ram[i + 2..] == ram[i + 1 := data[1]][i := data[0]]
    ensures |data| == 4 ==>
              ram[..i] + data + ram[i + 4..]
              == ram[i + 3 := data[3]][i + 2 := data[2]][i + 1 := data[1]][i := data[0]]
  {
  }

  lemma StoreRange(ram: Memory, a: u32, n: nat)
    requires |ram| <= RAM_OFFSET && 0 < n <= 4
    ensures CheckedSliceRange(|ram|, WrapU32(a - RAM_OFFSET), n).Success? <==> Reference.Writable(ram, a, n)
    ensures Reference.Writable(ram, a, n) ==>
              CheckedSliceRange(|ram|, WrapU32(a - RAM_OFFSET), n).value == (a - RAM_OFFSET, a - RAM_OFFSET + n)
    ensures CheckedSliceRange(|ram|, WrapU32(a - RAM_OFFSET), n).Failure? ==>
              CheckedSliceRange(|ram|, WrapU32(a - RAM_OFFSET), n).error.InvalidMemoryAddress?
  {
  }

  /** A store of `n` low bytes succeeds exactly inside RAM and writes exactly those bytes. */
  lemma StoreSame(ram: Memory, a: u32, k: R.StoreKind, value: i32)
    requires |ram| <= RAM_OFFSET
    ensures var stored := StoreBytes(ram, a, E.StoreData(match k case SB => 5 case SH => 6 case SW => 7, value));
            match Reference.Write(ram, a, Reference.StoreWidth(k), ToU32(value))
            case Some(written) => stored == Success(written)
            case None => stored.Failure? && stored.error.InvalidMemoryAddress?
  {
    hide Nat, Word, Reference.LowByte, Reference.Written, ToBytes1, ToBytes2, ToBytes4, CheckedSliceRange;
    Words.NatWord(ToU32(value));
    StoredBytes(ToU32(value), Bits(value));
    StoreRange(ram, a, Reference.StoreWidth(k));
    if Reference.Writable(ram, a, Reference.StoreWidth(k)) {
      Splice(ram, a - RAM_OFFSET, E.StoreData(match k case SB => 5 case SH => 6 case SW => 7, value));
      match k {
        case SB => Written1(ram, a, ToU32(value));
        case SH => Written2(ram, a, ToU32(value));
        case SW => Written4(ram, a, ToU32(value));
      }
    }
  }
}
