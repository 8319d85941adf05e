/** Memory over two slices (src/interpreter/memory.rs): code is read-only, RAM is stored to in place. */
module Slices {
  import opened Wrappers
  import opened Words
  import opened Machines
  import M = MemoryModel

  class SliceMemory {
    const code: Memory
    const ram: array<bv8>

    constructor (code: Memory, ram: array<bv8>)
      ensures this.code == code && this.ram == ram
    {
      this.code, this.ram := code, ram;
    }

    method LoadBytes(address: u32, len: nat) returns (r: Result<Memory, Error>)
      ensures r == M.LoadBytes(code, ram[..], address, len)
    {
      if address >= M.RAM_OFFSET {
        var range :- M.CheckedSliceRange(ram.Length, WrapU32(address - M.RAM_OFFSET), len);
        return Success(ram[range.0..range.1]);
      } else {
        var range :- M.CheckedSliceRange(|code|, address, len);
        return Success(code[range.0..range.1]);
      }
    }

    method StoreBytes(address: u32, data: Memory) returns (r: Result<(), Error>)
      modifies ram
      ensures match M.StoreBytes(old(ram[..]), address, data)
              case Success(stored) => r == Success(()) && ram[..] == stored
              case Failure(e) => r == Failure(e) && ram[..] == old(ram[..])
    {
      var range :- M.CheckedSliceRange(ram.Length, WrapU32(address - M.RAM_OFFSET), |data|);
      for k := 0 to |data|
        invariant forall j | 0 <= j < ram.Length ::
                    ram[j] == if range.0 <= j < range.0 + k then data[j - range.0] else old(ram[j])
      {
        ram[range.0 + k] := data[k];
      }
      return Success(());
    }

    method LoadByte(address: u32) returns (r: Result<bv32, Error>)
      ensures r == M.LoadByte(code, ram[..], address)
    {
      var bytes :- LoadBytes(address, 1);
      return Success(bytes[0] as bv32);
    }

    method LoadHalf(address: u32) returns (r: Result<bv32, Error>)
      ensures r == M.LoadHalf(code, ram[..], address)
    {
      hide M.FromBytes2;
      var bytes :- LoadBytes(address, 2);
      return Success(M.FromBytes2(bytes[0], bytes[1]));
    }

    method LoadWord(address: u32) returns (r: Result<bv32, Error>)
      ensures r == M.LoadWord(code, ram[..], address)
    {
      hide M.FromBytes4;
      var bytes :- LoadBytes(address, 4);
      return Success(M.FromBytes4(bytes[0], bytes[1], bytes[2], bytes[3]));
    }
  }
}
