/**
  Memory (src/interpreter/memory.rs, src/interpreter/memory/memory_type.rs): a read-only code slice at
  address 0 and a RAM slice at `RAM_OFFSET`, on a host with 64-bit `usize`.
 */
module MemoryModel {
  import opened Wrappers
  import opened Words
  import opened Machines

  const RAM_OFFSET: u32 := 0x8000_0000

  const USIZE_MAX: nat := 0xFFFF_FFFF_FFFF_FFFF

  function CheckedSliceRange(length: nat, start: nat, len: nat): Result<(nat, nat), Error> {
    var end := start + len;
    if end > USIZE_MAX then Failure(InvalidMemoryAccessLength(len))
    else if end > length then Failure(InvalidMemoryAddress(WrapU32(end)))
    else Success((start, end))
  }

  function LoadBytes(code: Memory, ram: Memory, address: u32, len: nat): (r: Result<Memory, Error>)
    ensures r.Success? ==> |r.value| == len
  {
    if address >= RAM_OFFSET then
      var range :- CheckedSliceRange(|ram|, WrapU32(address - RAM_OFFSET), len);
      Success(ram[range.0..range.1])
    else
      var range :- CheckedSliceRange(|code|, address, len);
      Success(code[range.0..range.1])
  }

  /** The RAM after a store. */
  function StoreBytes(ram: Memory, address: u32, data: Memory): (r: Result<Memory, Error>)
    ensures r.Success? ==> |r.value| == |ram|
  {
    var range :- CheckedSliceRange(|ram|, WrapU32(address - RAM_OFFSET), |data|);
    Success(ram[..range.0] + data + ram[range.1..])
  }

  // Little-endian values, as bit patterns.

  function FromBytes2(b0: bv8, b1: bv8): bv32 {
    b0 as bv32 | (b1 as bv32 << 8)
  }

  function FromBytes4(b0: bv8, b1: bv8, b2: bv8, b3: bv8): bv32 {
    b0 as bv32 | (b1 as bv32 << 8) | (b2 as bv32 << 16) | (b3 as bv32 << 24)
  }

  function ToBytes1(w: bv32): (bytes: Memory)
    ensures |bytes| == 1
  {
    [(w & 0xFF) as bv8]
  }

  function ToBytes2(w: bv32): (bytes: Memory)
    ensures |bytes| == 2
  {
    [(w & 0xFF) as bv8, ((w >> 8) & 0xFF) as bv8]
  }

  function ToBytes4(w: bv32): (bytes: Memory)
    ensures |bytes| == 4
  {
    [(w & 0xFF) as bv8, ((w >> 8) & 0xFF) as bv8, ((w >> 16) & 0xFF) as bv8, (w >> 24) as bv8]
  }

  function LoadByte(code: Memory, ram: Memory, address: u32): Result<bv32, Error> {
    var bytes :- LoadBytes(code, ram, address, 1);
    Success(bytes[0] as bv32)
  }

  function LoadHalf(code: Memory, ram: Memory, address: u32): Result<bv32, Error> {
    var bytes :- LoadBytes(code, ram, address, 2);
    Success(FromBytes2(bytes[0], bytes[1]))
  }

  function LoadWord(code: Memory, ram: Memory, address: u32): Result<bv32, Error> {
    var bytes :- LoadBytes(code, ram, address, 4);
    Success(FromBytes4(bytes[0], bytes[1], bytes[2], bytes[3]))
  }

  function StoreWord(ram: Memory, address: u32, value: i32): Result<Memory, Error> {
    StoreBytes(ram, address, ToBytes4(Bits(value)))
  }
}
