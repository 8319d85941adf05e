/**
  The interpreter, updated in place (src/interpreter.rs and src/interpreter/decode_execute).

  Every method is proved against a function on `Snapshot()`, the machine that the object's fields stand
  for: an instruction against its function in `Exec`, the host's operations against those in `Steps`.
 */
module Interpreters {
  import opened Wrappers
  import opened Words
  import opened Formats
  import opened Embive
  import opened Machines
  import opened RegisterFiles
  import opened Slices
  import opened Exec
  import C = Csr
  import S = Steps
  import M = MemoryModel
  import D = Departures
  import Shapes

  class Interpreter {
    var programCounter: u32
    const cpu: CPURegisters
    const controlStatus: CSRegisters
    const memory: SliceMemory
    /** 0 means no limit. */
    var instructionLimit: u32
    var memoryReservation: Option<Reservation>

    ghost predicate Valid() { cpu.Valid() && memory.ram as object != cpu.inner as object }

    ghost function Snapshot(): Machine
      requires Valid()
      reads this, cpu.inner, controlStatus, memory.ram
    {
      Machine(programCounter, cpu.Values(), controlStatus.Values(), memory.ram[..], memoryReservation)
    }

    constructor (memory: SliceMemory, instructionLimit: u32)
      ensures Valid() && fresh(cpu) && fresh(cpu.inner) && fresh(controlStatus)
      ensures this.memory == memory && this.instructionLimit == instructionLimit
      ensures Snapshot() == Machine(0, seq(32, _ => 0), CsrFile(0, 0, 0, 0, 0, false, false, 0), memory.ram[..], None)
    {
      programCounter := 0;
      cpu := new CPURegisters();
      controlStatus := new CSRegisters();
      this.memory := memory;
      this.instructionLimit := instructionLimit;
      memoryReservation := None;
    }

    /** `cpu.get(index)?`: the index of a decoded instruction is never refused. */
    method Register(index: bv8) returns (value: i32)
      requires Valid() && index < 32
      ensures value == Get(Snapshot(), index)
    {
      var r := cpu.Get(index);
      return r.value;
    }

    /** `*cpu.get_mut(index)? = value`. */
    method SetRegister(index: bv8, value: i32)
      requires Valid() && index < 32
      modifies cpu.inner
      ensures Snapshot() == Put(old(Snapshot()), index, value)
    {
      var r := cpu.Set(index, value);
    }

    method NextInstruction(size: Size)
      requires Valid()
      modifies `programCounter
      ensures Snapshot() == Advance(old(Snapshot()), size)
    {
      programCounter := WrapU32(programCounter + size.Bytes());
    }

    method Jump(imm: bv32)
      requires Valid()
      modifies `programCounter
      ensures Snapshot() == JumpBy(old(Snapshot()), imm)
    {
      programCounter := WrapU32(programCounter + Signed(imm));
    }

    method JumpTo(target: u32)
      requires Valid()
      modifies `programCounter
      ensures Snapshot() == old(Snapshot()).(pc := target)
    {
      programCounter := target;
    }

    method LinkAddress(size: Size) returns (link: i32)
      requires Valid()
      ensures link == Link(Snapshot(), size)
    {
      link := ToI32(WrapU32(programCounter + size.Bytes()));
    }

    method ExecuteCAddi(t: TypeCI1) returns (result: Result<State, Error>)
      requires Valid() && t.Encodable()
      modifies `programCounter, cpu.inner
      ensures Outcome(result, Snapshot()) == ExecCAddi(t, old(Snapshot()))
    {
      hide Get, Put, Advance, JumpBy, Signed, UInt, WrapI32, WrapU32, ToI32, ToU32;
      if t.rdRs1 != 0 {
        var rs1 := Register(t.rdRs1);
        SetRegister(t.rdRs1, WrapI32(rs1 + Signed(t.imm)));
      }
      NextInstruction(HalfSize);
      return Success(Running);
    }

    method ExecuteCLi(t: TypeCI1) returns (result: Result<State, Error>)
      requires Valid() && t.Encodable()
      modifies `programCounter, cpu.inner
      ensures Outcome(result, Snapshot()) == ExecCLi(t, old(Snapshot()))
    {
      hide Get, Put, Advance, JumpBy, Signed, UInt, WrapI32, WrapU32, ToI32, ToU32;
      if t.rdRs1 != 0 {
        SetRegister(t.rdRs1, Signed(t.imm));
      }
      NextInstruction(HalfSize);
      return Success(Running);
    }

    method ExecuteCLui(t: TypeCI3) returns (result: Result<State, Error>)
      requires Valid() && t.Encodable()
      modifies `programCounter, cpu.inner
      ensures Outcome(result, Snapshot()) == ExecCLui(t, old(Snapshot()))
    {
      hide Get, Put, Advance, JumpBy, Signed, UInt, WrapI32, WrapU32, ToI32, ToU32;
      if t.rdRs1 != 0 {
        SetRegister(t.rdRs1, Signed(t.imm));
      }
      NextInstruction(HalfSize);
      return Success(Running);
    }

    method ExecuteCSrli(t: TypeCB1) returns (result: Result<State, Error>)
      requires Valid() && t.Encodable()
      modifies `programCounter, cpu.inner
      ensures Outcome(result, Snapshot()) == ExecCSrli(t, old(Snapshot()))
    {
      hide Get, Put, Advance, JumpBy, Signed, UInt, WrapI32, WrapU32, ToI32, ToU32, ShiftRightLogical;
      if t.rdRs1 != 0 {
        var rs1 := Register(t.rdRs1);
        SetRegister(t.rdRs1, ShiftRightLogical(rs1, UInt(t.imm) % 32));
      }
      NextInstruction(HalfSize);
      return Success(Running);
    }

    method ExecuteCSrai(t: TypeCB1) returns (result: Result<State, Error>)
      requires Valid() && t.Encodable()
      modifies `programCounter, cpu.inner
      ensures Outcome(result, Snapshot()) == ExecCSrai(t, old(Snapshot()))
    {
      hide Get, Put, Advance, JumpBy, Signed, UInt, WrapI32, WrapU32, ToI32, ToU32, ShiftRightArithmetic;
      if t.rdRs1 != 0 {
        var rs1 := Register(t.rdRs1);
        SetRegister(t.rdRs1, ShiftRightArithmetic(rs1, UInt(t.imm) % 32));
      }
      NextInstruction(HalfSize);
      return Success(Running);
    }

    method ExecuteCAndi(t: TypeCB2) returns (result: Result<State, Error>)
      requires Valid() && t.Encodable()
      modifies `programCounter, cpu.inner
      ensures Outcome(result, Snapshot()) == ExecCAndi(t, old(Snapshot()))
    {
      hide Get, Put, Advance, JumpBy, Signed, UInt, WrapI32, WrapU32, ToI32, ToU32, And;
      if t.rdRs1 != 0 {
        var rs1 := Register(t.rdRs1);
        SetRegister(t.rdRs1, And(rs1, Signed(t.imm)));
      }
      NextInstruction(HalfSize);
      return Success(Running);
    }

    method ExecuteCSub(t: TypeCS) returns (result: Result<State, Error>)
      requires Valid() && t.Encodable()
      modifies `programCounter, cpu.inner
      ensures Outcome(result, Snapshot()) == ExecCSub(t, old(Snapshot()))
    {
      hide Get, Put, Advance, JumpBy, Signed, UInt, WrapI32, WrapU32, ToI32, ToU32;
      if t.rdRs1 != 0 {
        var rs2: int := Register(t.rs2);
        var rs1: int := Register(t.rdRs1);
        SetRegister(t.rdRs1, WrapI32(rs1 - rs2));
      }
      NextInstruction(HalfSize);
      return Success(Running);
    }

    method ExecuteCXor(t: TypeCS) returns (result: Result<State, Error>)
      requires Valid() && t.Encodable()
      modifies `programCounter, cpu.inner
      ensures Outcome(result, Snapshot()) == ExecCXor(t, old(Snapshot()))
    {
      hide Get, Put, Advance, JumpBy, Signed, UInt, WrapI32, WrapU32, ToI32, ToU32, Xor;
      if t.rdRs1 != 0 {
        var rs2 := Register(t.rs2);
        var rs1 := Register(t.rdRs1);
        SetRegister(t.rdRs1, Xor(rs1, rs2));
      }
      NextInstruction(HalfSize);
      return Success(Running);
    }

    method ExecuteCOr(t: TypeCS) returns (result: Result<State, Error>)
      requires Valid() && t.Encodable()
      modifies `programCounter, cpu.inner
      ensures Outcome(result, Snapshot()) == ExecCOr(t, old(Snapshot()))
    {
      hide Get, Put, Advance, JumpBy, Signed, UInt, WrapI32, WrapU32, ToI32, ToU32, Or;
      if t.rdRs1 != 0 {
        var rs2 := Register(t.rs2);
        var rs1 := Register(t.rdRs1);
        SetRegister(t.rdRs1, Or(rs1, rs2));
      }
      NextInstruction(HalfSize);
      return Success(Running);
    }

    method ExecuteCAnd(t: TypeCS) returns (result: Result<State, Error>)
      requires Valid() && t.Encodable()
      modifies `programCounter, cpu.inner
      ensures Outcome(result, Snapshot()) == ExecCAnd(t, old(Snapshot()))
    {
      hide Get, Put, Advance, JumpBy, Signed, UInt, WrapI32, WrapU32, ToI32, ToU32, And;
      if t.rdRs1 != 0 {
        var rs2 := Register(t.rs2);
        var rs1 := Register(t.rdRs1);
        SetRegister(t.rdRs1, And(rs1, rs2));
      }
      NextInstruction(HalfSize);
      return Success(Running);
    }

    method ExecuteCSlli(t: TypeCI4) returns (result: Result<State, Error>)
      requires Valid() && t.Encodable()
      modifies `programCounter, cpu.inner
      ensures Outcome(result, Snapshot()) == ExecCSlli(t, old(Snapshot()))
    {
      hide Get, Put, Advance, JumpBy, Signed, UInt, WrapI32, WrapU32, ToI32, ToU32, Pow2;
      if t.rdRs1 != 0 {
        var rs1 := Register(t.rdRs1);
        SetRegister(t.rdRs1, WrapI32(rs1 * Pow2(UInt(t.imm) % 32)));
      }
      NextInstruction(HalfSize);
      return Success(Running);
    }

    method ExecuteAuipc(t: TypeU) returns (result: Result<State, Error>)
      requires Valid() && t.Encodable()
      modifies `programCounter, cpu.inner
      ensures Outcome(result, Snapshot()) == ExecAuipc(t, old(Snapshot()))
    {
      hide Get, Put, Advance, JumpBy, Signed, UInt, WrapI32, WrapU32, ToI32, ToU32;
      if t.rd != 0 {
        SetRegister(t.rd, ToI32(WrapU32(programCounter + Signed(t.imm))));
      }
      NextInstruction(WordSize);
      return Success(Running);
    }

    method ExecuteLui(t: TypeU) returns (result: Result<State, Error>)
      requires Valid() && t.Encodable()
      modifies `programCounter, cpu.inner
      ensures Outcome(result, Snapshot()) == ExecLui(t, old(Snapshot()))
    {
      hide Get, Put, Advance, JumpBy, Signed, UInt, WrapI32, WrapU32, ToI32, ToU32;
      if t.rd != 0 {
        SetRegister(t.rd, Signed(t.imm));
      }
      NextInstruction(WordSize);
      return Success(Running);
    }

    method ExecuteCAddi16sp(t: TypeCI2) returns (result: Result<State, Error>)
      requires Valid() && t.Encodable()
      modifies `programCounter, cpu.inner
      ensures Outcome(result, Snapshot()) == ExecCAddi16sp(t, old(Snapshot()))
    {
      hide Get, Put, Advance, JumpBy, Signed, UInt, WrapI32, WrapU32, ToI32, ToU32;
      var sp := Register(SP);
      SetRegister(SP, WrapI32(sp + Signed(t.imm)));
      NextInstruction(HalfSize);
      return Success(Running);
    }

    method ExecuteCAddi4spn(t: TypeCIW) returns (result: Result<State, Error>)
      requires Valid() && t.Encodable()
      modifies `programCounter, cpu.inner
      ensures Outcome(result, Snapshot()) == ExecCAddi4spn(t, old(Snapshot()))
    {
      hide Get, Put, Advance, JumpBy, Signed, UInt, WrapI32, WrapU32, ToI32, ToU32;
      if t.imm == 0 {
        return Failure(IllegalInstruction(programCounter));
      }
      var sp := Register(SP);
      SetRegister(t.rd, WrapI32(sp + Signed(t.imm)));
      NextInstruction(HalfSize);
      return Success(Running);
    }

    method ExecuteCJal(t: TypeCJ) returns (result: Result<State, Error>)
      requires Valid() && t.Encodable()
      modifies `programCounter, cpu.inner
      ensures Outcome(result, Snapshot()) == ExecCJal(t, old(Snapshot()))
    {
      hide Get, Put, Advance, JumpBy, Signed, UInt, WrapI32, WrapU32, ToI32, ToU32, Link;
      var link := LinkAddress(HalfSize);
      SetRegister(RA, link);
      Jump(t.imm);
      return Success(Running);
    }

    method ExecuteCJ(t: TypeCJ) returns (result: Result<State, Error>)
      requires Valid() && t.Encodable()
      modifies `programCounter
      ensures Outcome(result, Snapshot()) == ExecCJ(t, old(Snapshot()))
    {
      hide Get, Put, Advance, JumpBy, Signed, UInt, WrapI32, WrapU32, ToI32, ToU32;
      Jump(t.imm);
      return Success(Running);
    }

    method ExecuteCBeqz(t: TypeCB4) returns (result: Result<State, Error>)
      requires Valid() && t.Encodable()
      modifies `programCounter
      ensures Outcome(result, Snapshot()) == ExecCBeqz(t, old(Snapshot()))
    {
      hide Get, Put, Advance, JumpBy, Signed, UInt, WrapI32, WrapU32, ToI32, ToU32;
      var rs1 := Register(t.rs1);
      if rs1 == 0 {
        Jump(t.imm);
      } else {
        NextInstruction(HalfSize);
      }
      return Success(Running);
    }

    method ExecuteCBnez(t: TypeCB4) returns (result: Result<State, Error>)
      requires Valid() && t.Encodable()
      modifies `programCounter
      ensures Outcome(result, Snapshot()) == ExecCBnez(t, old(Snapshot()))
    {
      hide Get, Put, Advance, JumpBy, Signed, UInt, WrapI32, WrapU32, ToI32, ToU32;
      var rs1 := Register(t.rs1);
      if rs1 != 0 {
        Jump(t.imm);
      } else {
        NextInstruction(HalfSize);
      }
      return Success(Running);
    }

    method ExecuteCJrMv(t: TypeCR) returns (result: Result<State, Error>)
      requires Valid() && t.Encodable()
      modifies `programCounter, cpu.inner
      ensures Outcome(result, Snapshot()) == ExecJrMv(t, old(Snapshot()))
    {
      hide Get, Put, Advance, JumpBy, Signed, UInt, WrapI32, WrapU32, ToI32, ToU32;
      if t.rs2 == 0 {
        var rs1 := Register(t.rdRs1);
        JumpTo(ToU32(rs1));
      } else {
        var rs2 := Register(t.rs2);
        SetRegister(t.rdRs1, rs2);
        NextInstruction(HalfSize);
      }
      return Success(Running);
    }

    method ExecuteCEbreakJalrAdd(t: TypeCR) returns (result: Result<State, Error>)
      requires Valid() && t.Encodable()
      modifies `programCounter, cpu.inner
      ensures Outcome(result, Snapshot()) == ExecEbreakJalrAdd(t, old(Snapshot()))
    {
      hide Get, Put, Advance, JumpBy, Signed, UInt, WrapI32, WrapU32, ToI32, ToU32, Link;
      if t.rs2 == 0 {
        if t.rdRs1 == 0 {
          NextInstruction(HalfSize);
          return Success(Halted);
        }
        var rs1 := Register(t.rdRs1);
        var link := LinkAddress(HalfSize);
        SetRegister(RA, link);
        JumpTo(ToU32(rs1));
      } else {
        var rs2: int := Register(t.rs2);
        var rd: int := Register(t.rdRs1);
        SetRegister(t.rdRs1, WrapI32(rd + rs2));
        NextInstruction(HalfSize);
      }
      return Success(Running);
    }

    method ExecuteBranch(t: TypeB) returns (result: Result<State, Error>)
      requires Valid() && t.Encodable()
      modifies `programCounter
      ensures Outcome(result, Snapshot()) == ExecBranch(t, old(Snapshot()))
    {
      hide Get, Put, Advance, JumpBy, Signed, UInt, WrapI32, WrapU32, ToI32, ToU32, Taken;
      var rs1 := Register(t.rs1);
      var rs2 := Register(t.rs2);
      match Taken(t.func, rs1, rs2) {
        case None => return Failure(InvalidInstruction(programCounter));
        case Some(branch) =>
          if branch {
            Jump(t.imm);
          } else {
            NextInstruction(WordSize);
          }
      }
      return Success(Running);
    }

    method ExecuteJal(t: TypeJ) returns (result: Result<State, Error>)
      requires Valid() && t.Encodable()
      modifies `programCounter, cpu.inner
      ensures Outcome(result, Snapshot()) == ExecJal(t, old(Snapshot()))
    {
      hide Get, Put, Advance, JumpBy, Signed, UInt, WrapI32, WrapU32, ToI32, ToU32, Link;
      if t.rd != 0 {
        var link := LinkAddress(WordSize);
        SetRegister(t.rd, link);
      }
      Jump(t.imm);
      return Success(Running);
    }

    method ExecuteJalr(t: TypeI) returns (result: Result<State, Error>)
      requires Valid() && t.Encodable()
      modifies `programCounter, cpu.inner
      ensures Outcome(result, Snapshot()) == ExecJalr(t, old(Snapshot()))
    {
      hide Get, Put, Advance, JumpBy, Signed, UInt, WrapI32, WrapU32, ToI32, ToU32, Link, Address;
      var rs1 := Register(t.rs1);
      if t.rdRs2 != 0 {
        var link := LinkAddress(WordSize);
        SetRegister(t.rdRs2, link);
      }
      JumpTo(Address(rs1, t.imm));
      return Success(Running);
    }

    method ExecuteOpImm(t: TypeI) returns (result: Result<State, Error>)
      requires Valid() && t.Encodable()
      modifies `programCounter, cpu.inner
      ensures Outcome(result, Snapshot()) == ExecOpImm(t, old(Snapshot()))
    {
      hide Get, Put, Advance, JumpBy, Signed, UInt, WrapI32, WrapU32, ToI32, ToU32, OpImmResult;
      var rs1 := Register(t.rs1);
      if t.rdRs2 != 0 {
        SetRegister(t.rdRs2, OpImmResult(t, rs1));
      }
      NextInstruction(WordSize);
      return Success(Running);
    }

    /** A value loaded by the load functions: `i8`, `i16`, `i32`, `u8` and `u16`. */
    method Load(func: bv8, address: u32) returns (r: Result<i32, Error>)
      requires Valid()
      ensures r == LoadValue(func, memory.code, memory.ram[..], address)
    {
      hide Signed, AsI8, AsI16, M.LoadByte, M.LoadHalf, M.LoadWord;
      match func {
        case 0 => var b :- memory.LoadByte(address); return Success(Signed(AsI8(b)));
        case 1 => var h :- memory.LoadHalf(address); return Success(Signed(AsI16(h)));
        case 2 => var w :- memory.LoadWord(address); return Success(Signed(w));
        case 3 => var b :- memory.LoadByte(address); return Success(Signed(b));
        case _ => var h :- memory.LoadHalf(address); return Success(Signed(h));
      }
    }

    /** The rest of a load, once the address is known. */
    method LoadInto(func: bv8, rd: bv8, address: u32, size: Size) returns (result: Result<State, Error>)
      requires Valid() && rd < 32
      modifies `programCounter, cpu.inner
      ensures Outcome(result, Snapshot())
           == ExecLoad(old(Snapshot()), rd, LoadValue(func, memory.code, old(memory.ram[..]), address), size)
    {
      hide Put, Advance, LoadValue;
      var value :- Load(func, address);
      SetRegister(rd, value);
      NextInstruction(size);
      return Success(Running);
    }

    /** The rest of a store, once the address is known. */
    method StoreFrom(func: bv8, rs2: bv8, address: u32, size: Size) returns (result: Result<State, Error>)
      requires Valid() && rs2 < 32
      modifies `programCounter, memory.ram
      ensures Outcome(result, Snapshot())
           == ExecStore(old(Snapshot()), address, StoreData(func, Get(old(Snapshot()), rs2)), size)
    {
      hide Get, Advance, StoreData, M.StoreBytes;
      var value := Register(rs2);
      var _ :- memory.StoreBytes(address, StoreData(func, value));
      NextInstruction(size);
      return Success(Running);
    }

    method ExecuteLoadStore(t: TypeI) returns (result: Result<State, Error>)
      requires Valid() && t.Encodable()
      modifies `programCounter, cpu.inner, memory.ram
      ensures Outcome(result, Snapshot()) == ExecLoadStore(t, memory.code, old(Snapshot()))
    {
      hide Get, Put, Advance, JumpBy, Signed, UInt, WrapI32, WrapU32, ToI32, ToU32, Address, LoadValue,
        StoreData, ExecLoad, ExecStore;
      var rs1 := Register(t.rs1);
      var address := Address(rs1, t.imm);
      if t.func < 5 {
        result := LoadInto(t.func, t.rdRs2, address, WordSize);
      } else {
        result := StoreFrom(t.func, t.rdRs2, address, WordSize);
      }
    }

    method ExecuteCLw(t: TypeCL) returns (result: Result<State, Error>)
      requires Valid() && t.Encodable()
      modifies `programCounter, cpu.inner
      ensures Outcome(result, Snapshot()) == ExecCLw(t, memory.code, old(Snapshot()))
    {
      hide Get, Put, Advance, JumpBy, Signed, UInt, WrapI32, WrapU32, ToI32, ToU32, Address, LoadValue,
        ExecLoad;
      var rs1 := Register(t.rs1);
      result := LoadInto(2, t.rdRs2, Address(rs1, t.imm), HalfSize);
    }

    method ExecuteCLwsp(t: TypeCI5) returns (result: Result<State, Error>)
      requires Valid() && t.Encodable()
      modifies `programCounter, cpu.inner
      ensures Outcome(result, Snapshot()) == ExecCLwsp(t, memory.code, old(Snapshot()))
    {
      hide Get, Put, Advance, JumpBy, Signed, UInt, WrapI32, WrapU32, ToI32, ToU32, Address, LoadValue,
        ExecLoad;
      var sp := Register(SP);
      result := LoadInto(2, t.rdRs1, Address(sp, t.imm), HalfSize);
    }

    method ExecuteCSw(t: TypeCL) returns (result: Result<State, Error>)
      requires Valid() && t.Encodable()
      modifies `programCounter, memory.ram
      ensures Outcome(result, Snapshot()) == ExecCSw(t, old(Snapshot()))
    {
      hide Get, Put, Advance, JumpBy, Signed, UInt, WrapI32, WrapU32, ToI32, ToU32, Address, StoreData,
        ExecStore;
      var rs1 := Register(t.rs1);
      result := StoreFrom(7, t.rdRs2, Address(rs1, t.imm), HalfSize);
    }

    method ExecuteCSwsp(t: TypeCSS) returns (result: Result<State, Error>)
      requires Valid() && t.Encodable()
      modifies `programCounter, memory.ram
      ensures Outcome(result, Snapshot()) == ExecCSwsp(t, old(Snapshot()))
    {
      hide Get, Put, Advance, JumpBy, Signed, UInt, WrapI32, WrapU32, ToI32, ToU32, Address, StoreData,
        ExecStore;
      var sp := Register(SP);
      result := StoreFrom(7, t.rs2, Address(sp, t.imm), HalfSize);
    }

    /** The rest of an operation that has computed the value for `rd`. */
    method Finish(rd: bv8, value: i32) returns (result: Result<State, Error>)
      requires Valid() && rd < 32
      modifies `programCounter, cpu.inner
      ensures Outcome(result, Snapshot()) == Next(PutUnlessZero(old(Snapshot()), rd, value), WordSize)
    {
      hide Put, Advance;
      if rd != 0 {
        SetRegister(rd, value);
      }
      NextInstruction(WordSize);
      return Success(Running);
    }

    method Store(address: u32, value: i32) returns (r: Result<(), Error>)
      requires Valid()
      modifies memory.ram
      ensures match M.StoreWord(old(memory.ram[..]), address, value)
              case Success(ram) => r == Success(()) && Snapshot() == old(Snapshot()).(ram := ram)
              case Failure(e) => r == Failure(e) && Snapshot() == old(Snapshot())
    {
      hide M.ToBytes4, M.StoreBytes, Bits;
      r := memory.StoreBytes(address, M.ToBytes4(Bits(value)));
    }

    method LoadReserved(address: u32, value: i32)
      requires Valid()
      modifies `memoryReservation
      ensures Snapshot() == old(Snapshot()).(reservation := Some(Reservation(address, value)))
    {
      memoryReservation := Some(Reservation(address, value));
    }

    /** `memory_reservation.take()` comes before anything else. */
    method StoreConditional(address: u32, value: i32, rs2: i32) returns (r: Result<i32, Error>)
      requires Valid()
      modifies `memoryReservation, memory.ram
      ensures var before := old(Snapshot()); var taken := before.(reservation := None);
              if before.reservation == Some(Reservation(address, value)) then
                match M.StoreWord(before.ram, address, rs2)
                case Success(ram) => r == Success(0) && Snapshot() == taken.(ram := ram)
                case Failure(e) => r == Failure(e) && Snapshot() == taken
              else
                r == Success(1) && Snapshot() == taken
    {
      hide M.StoreWord;
      var reservation := memoryReservation;
      memoryReservation := None;
      match reservation {
        case Some(held) =>
          if held.address == address && value == held.value {
            var _ :- Store(held.address, rs2);
            return Success(0);
          }
        case None =>
      }
      return Success(1);
    }

    /** The arms of atomic operations, on the value that was loaded. */
    method ExecuteAtomic(t: TypeR, address: u32, value: i32, rs2: i32) returns (result: Result<State, Error>)
      requires Valid() && t.Encodable()
      modifies `programCounter, `memoryReservation, cpu.inner, memory.ram
      ensures Outcome(result, Snapshot()) == ExecAtomic(t, address, value, rs2, old(Snapshot()))
    {
      hide Put, PutUnlessZero, Advance, M.StoreWord, AmoResult;
      if t.func == 18 {
        LoadReserved(address, value);
        result := Finish(t.rd, value);
      } else if t.func == 19 {
        var ret :- StoreConditional(address, value, rs2);
        result := Finish(t.rd, ret);
      } else {
        match AmoResult(t.func, value, rs2) {
          case None => return Failure(InvalidInstruction(programCounter));
          case Some(stored) =>
            var _ :- Store(address, stored);
            result := Finish(t.rd, value);
        }
      }
    }

    method ExecuteOpAmo(t: TypeR) returns (result: Result<State, Error>)
      requires Valid() && t.Encodable()
      modifies `programCounter, `memoryReservation, cpu.inner, memory.ram
      ensures Outcome(result, Snapshot()) == ExecOpAmo(t, memory.code, old(Snapshot()))
    {
      hide Get, Put, Advance, JumpBy, Signed, UInt, WrapI32, WrapU32, ToI32, ToU32, Alu, ExecAtomic,
        PutUnlessZero, M.LoadWord;
      var rs1 := Register(t.rs1);
      var rs2 := Register(t.rs2);
      match Alu(t.func, rs1, rs2) {
        case Some(value) => result := Finish(t.rd, value);
        case None =>
          var word :- memory.LoadWord(ToU32(rs1));
          result := ExecuteAtomic(t, ToU32(rs1), Signed(word), rs2);
      }
    }

    /** The operation of a CSR instruction, if its function is one. */
    method SelectOperation(t: TypeI) returns (r: Result<Option<C.CSOperation>, Error>)
      requires Valid() && t.Encodable()
      ensures match CsrOperation(t, Snapshot())
              case None => r == Failure(InvalidInstruction(programCounter))
              case Some(op) => r == Success(op)
    {
      hide Get, Bits;
      match t.func {
        case 1 =>
          var rs1 := Register(t.rs1);
          return Success(Some(C.Write(Bits(rs1))));
        case 2 =>
          if t.rs1 != 0 {
            var rs1 := Register(t.rs1);
            return Success(Some(C.Set(Bits(rs1))));
          }
          return Success(None);
        case 3 =>
          if t.rs1 != 0 {
            var rs1 := Register(t.rs1);
            return Success(Some(C.Clear(Bits(rs1))));
          }
          return Success(None);
        case 4 => return Success(Some(C.Write(t.rs1 as bv32)));
        case 5 => return Success(if t.rs1 != 0 then Some(C.Set(t.rs1 as bv32)) else None);
        case 6 => return Success(if t.rs1 != 0 then Some(C.Clear(t.rs1 as bv32)) else None);
        case _ => return Failure(InvalidInstruction(programCounter));
      }
    }

    method ExecuteCsr(t: TypeI) returns (result: Result<State, Error>)
      requires Valid() && t.Encodable()
      modifies `programCounter, cpu.inner, controlStatus
      ensures Outcome(result, Snapshot()) == ExecCsr(t, old(Snapshot()))
    {
      hide Get, Put, Advance, JumpBy, Signed, UInt, WrapI32, WrapU32, ToI32, ToU32, CsrOperation, C.Operation,
        CsrAddress, PutUnlessZero;
      var op :- SelectOperation(t);
      var res :- controlStatus.Access(op, CsrAddress(t.imm));
      result := Finish(t.rdRs2, Signed(res));
    }

    method ExecuteSystemMiscMem(t: TypeI) returns (result: Result<State, Error>)
      requires Valid() && t.Encodable()
      modifies `programCounter, cpu.inner, controlStatus
      ensures Outcome(result, Snapshot()) == ExecSystem(t, old(Snapshot()))
    {
      hide Get, Put, Advance, JumpBy, Signed, UInt, WrapI32, WrapU32, ToI32, ToU32, ExecCsr, C.TrapReturn;
      if t.func != 0 {
        result := ExecuteCsr(t);
        return;
      }
      match t.imm {
        case 0 => result := Success(Called);
        case 1 => result := Success(Halted);
        case 2 => result := Success(Running);
        case 3 => result := Success(Waiting);
        case 4 =>
          programCounter := controlStatus.LeaveTrap();
          return Success(Running);
        case _ => return Failure(InvalidInstruction(programCounter));
      }
      NextInstruction(WordSize);
    }

    /** `decode_execute` on a decoded instruction. */
    method Dispatch(e: Instruction) returns (result: Result<State, Error>)
      requires Valid() && e.Encodable()
      modifies `programCounter, `memoryReservation, cpu.inner, controlStatus, memory.ram
      ensures Outcome(result, Snapshot()) == Execute(e, memory.code, old(Snapshot()))
    {
      hide ExecOpAmo, ExecSystem;
      if e.OpAmo? {
        result := ExecuteOpAmo(e.r);
      } else if e.SystemMiscMem? {
        result := ExecuteSystemMiscMem(e.i);
      } else if e.Size() == WordSize {
        result := DispatchWord(e);
      } else if e.CAddi4spn? || e.CLw? || e.CSw? || e.CAddi? || e.CJal? || e.CLi? || e.CAddi16sp? || e.CLui?
             || e.CSrli? || e.CSrai? || e.CAndi? {
        result := DispatchLow(e);
      } else {
        result := DispatchHigh(e);
      }
    }

    method DispatchLow(e: Instruction) returns (result: Result<State, Error>)
      requires Valid() && e.Encodable()
      requires e.CAddi4spn? || e.CLw? || e.CSw? || e.CAddi? || e.CJal? || e.CLi? || e.CAddi16sp? ||
            e.CLui? || e.CSrli? || e.CSrai? || e.CAndi?
      modifies `programCounter, `memoryReservation, cpu.inner, controlStatus, memory.ram
      ensures Outcome(result, Snapshot()) == Execute(e, memory.code, old(Snapshot()))
    {
      hide ExecCAddi4spn, ExecCLw, ExecCSw, ExecCAddi, ExecCJal, ExecCLi, ExecCAddi16sp, ExecCLui, ExecCSrli,
        ExecCSrai, ExecCAndi, TypeCIW.Encodable, TypeCL.Encodable, TypeCI1.Encodable, TypeCJ.Encodable,
        TypeCI2.Encodable, TypeCI3.Encodable, TypeCB1.Encodable, TypeCB2.Encodable;
      match e {
        case CAddi4spn(t) => result := ExecuteCAddi4spn(t);
        case CLw(t) => result := ExecuteCLw(t);
        case CSw(t) => result := ExecuteCSw(t);
        case CAddi(t) => result := ExecuteCAddi(t);
        case CJal(t) => result := ExecuteCJal(t);
        case CLi(t) => result := ExecuteCLi(t);
        case CAddi16sp(t) => result := ExecuteCAddi16sp(t);
        case CLui(t) => result := ExecuteCLui(t);
        case CSrli(t) => result := ExecuteCSrli(t);
        case CSrai(t) => result := ExecuteCSrai(t);
        case CAndi(t) => result := ExecuteCAndi(t);
      }
    }

    method DispatchHigh(e: Instruction) returns (result: Result<State, Error>)
      requires Valid() && e.Encodable()
      requires e.CSub? || e.CXor? || e.COr? || e.CAnd? || e.CJ? || e.CBeqz? || e.CBnez? || e.CSlli? ||
            e.CLwsp? || e.CJrMv? || e.CEbreakJalrAdd? || e.CSwsp?
      modifies `programCounter, `memoryReservation, cpu.inner, controlStatus, memory.ram
      ensures Outcome(result, Snapshot()) == Execute(e, memory.code, old(Snapshot()))
    {
      hide ExecCSub, ExecCXor, ExecCOr, ExecCAnd, ExecCJ, ExecCBeqz, ExecCBnez, ExecCSlli, ExecCLwsp, ExecJrMv,
        ExecEbreakJalrAdd, ExecCSwsp, TypeCS.Encodable, TypeCJ.Encodable, TypeCB4.Encodable, TypeCI4.Encodable,
        TypeCI5.Encodable, TypeCR.Encodable, TypeCSS.Encodable;
      match e {
        case CSub(t) => result := ExecuteCSub(t);
        case CXor(t) => result := ExecuteCXor(t);
        case COr(t) => result := ExecuteCOr(t);
        case CAnd(t) => result := ExecuteCAnd(t);
        case CJ(t) => result := ExecuteCJ(t);
        case CBeqz(t) => result := ExecuteCBeqz(t);
        case CBnez(t) => result := ExecuteCBnez(t);
        case CSlli(t) => result := ExecuteCSlli(t);
        case CLwsp(t) => result := ExecuteCLwsp(t);
        case CJrMv(t) => result := ExecuteCJrMv(t);
        case CEbreakJalrAdd(t) => result := ExecuteCEbreakJalrAdd(t);
        case CSwsp(t) => result := ExecuteCSwsp(t);
      }
    }

    method DispatchWord(e: Instruction) returns (result: Result<State, Error>)
      requires Valid() && e.Encodable()
      requires e.Auipc? || e.Branch? || e.Jal? || e.Jalr? || e.LoadStore? || e.Lui? || e.OpImm?
      modifies `programCounter, `memoryReservation, cpu.inner, controlStatus, memory.ram
      ensures Outcome(result, Snapshot()) == Execute(e, memory.code, old(Snapshot()))
    {
      hide ExecAuipc, ExecBranch, ExecJal, ExecJalr, ExecLoadStore, ExecLui, ExecOpImm, TypeU.Encodable,
        TypeB.Encodable, TypeJ.Encodable, TypeI.Encodable;
      match e {
        case Auipc(t) => result := ExecuteAuipc(t);
        case Branch(t) => result := ExecuteBranch(t);
        case Jal(t) => result := ExecuteJal(t);
        case Jalr(t) => result := ExecuteJalr(t);
        case LoadStore(t) => result := ExecuteLoadStore(t);
        case Lui(t) => result := ExecuteLui(t);
        case OpImm(t) => result := ExecuteOpImm(t);
      }
    }

    method DecodeExecute(data: bv32) returns (result: Result<State, Error>)
      requires Valid()
      modifies `programCounter, `memoryReservation, cpu.inner, controlStatus, memory.ram
      ensures Outcome(result, Snapshot()) == S.DecodeExecute(data, memory.code, old(Snapshot()))
    {
      hide Decode, Execute, Instruction.Encodable;
      Shapes.DecodeShaped(data);
      result := Dispatch(Decode(data).value);
    }

    method Fetch() returns (r: Result<bv32, Error>)
      requires Valid()
      ensures r == S.Fetch(memory.code, Snapshot())
    {
      r := memory.LoadWord(programCounter);
    }

    method Step() returns (result: Result<State, Error>)
      requires Valid()
      modifies `programCounter, `memoryReservation, cpu.inner, controlStatus, memory.ram
      ensures Outcome(result, Snapshot()) == S.Step(memory.code, old(Snapshot()))
    {
      hide S.Fetch, S.DecodeExecute;
      var data :- Fetch();
      result := DecodeExecute(data);
    }

    /**
      With a limit, at most that many steps.  Without one, the source loops until a step does not report
      `Running`; `enough` is a number of steps in which that happens, so that this method terminates.
     */
    method Run(ghost enough: nat) returns (result: Result<State, Error>)
      requires Valid()
      requires instructionLimit == 0 ==> S.Run(memory.code, Snapshot(), enough).result != S.RUNNING
      modifies `programCounter, `memoryReservation, cpu.inner, controlStatus, memory.ram
      ensures Outcome(result, Snapshot())
           == S.Run(memory.code, old(Snapshot()), if instructionLimit > 0 then instructionLimit else enough)
    {
      hide S.Step;
      ghost var start := Snapshot();
      if instructionLimit > 0 {
        for i := 0 to instructionLimit
          invariant S.Run(memory.code, start, instructionLimit)
                 == S.Run(memory.code, Snapshot(), instructionLimit - i)
        {
          var state :- Step();
          if state != Running {
            return Success(state);
          }
        }
        return Success(Running);
      }
      ghost var left := enough;
      while true
        invariant S.Run(memory.code, start, enough) == S.Run(memory.code, Snapshot(), left)
        invariant S.Run(memory.code, Snapshot(), left).result != S.RUNNING
        decreases left
      {
        var state :- Step();
        if state != Running {
          return Success(state);
        }
        left := left - 1;
      }
    }

    method Interrupt(value: i32) returns (r: Result<(), Error>)
      requires Valid()
      modifies `programCounter, controlStatus
      ensures (r, Snapshot()) == S.Interrupt(old(Snapshot()), value)
    {
      hide C.InterruptEnabled, C.TrapEntry, UInt;
      var enabled := controlStatus.Enabled();
      if !enabled {
        return Failure(InterruptNotEnabled);
      }
      controlStatus.SetInterrupt();
      programCounter := controlStatus.EnterTrap(programCounter, value);
      return Success(());
    }

    method SyscallArguments() returns (nr: i32, args: seq<i32>)
      requires Valid()
      ensures (nr, args) == S.SyscallArguments(Snapshot())
      ensures nr == Snapshot().regs[17] && args == Snapshot().regs[10..17]
    {
      args := cpu.inner[S.A0..S.A0 + S.SYSCALL_ARGS];
      nr := cpu.inner[S.A7];
    }

    method SyscallResult(reply: Result<i32, S.NonZeroI32>)
      requires Valid()
      modifies cpu.inner
      ensures Snapshot() == S.SyscallResult(old(Snapshot()), reply)
    {
      match reply {
        case Success(value) =>
          cpu.inner[S.A0] := 0;
          cpu.inner[S.A1] := value;
        case Failure(error) =>
          cpu.inner[S.A0] := error;
          cpu.inner[S.A1] := 0;
      }
    }

    /** The host function is any function of the number, the arguments and memory. */
    method Syscall<E>(host: (i32, seq<i32>, Memory, Memory) -> S.HostAnswer<E>) returns (r: Result<(), E>)
      requires Valid()
      requires forall nr, args, code, ram :: |host(nr, args, code, ram).ram| == |ram|
      modifies cpu.inner, memory.ram
      ensures var m := old(Snapshot()); var call := S.SyscallArguments(m);
              (r, Snapshot()) == S.Syscall(m, host(call.0, call.1, memory.code, m.ram))
      ensures var m := old(Snapshot());
              var done := host(m.regs[17], m.regs[10..17], memory.code, m.ram);
              match done.answer
              case Success(Success(value)) => r == Success(()) && Snapshot() == D.ActualAnswer(m, 0, value, done.ram)
              case Success(Failure(code)) => r == Success(()) && Snapshot() == D.ActualAnswer(m, code, 0, done.ram)
              case Failure(e) => r == Failure(e) && Snapshot() == m.(ram := done.ram)
    {
      hide S.SyscallArguments;
      var nr, args := SyscallArguments();
      var answer := host(nr, args, memory.code, memory.ram[..]);
      for i := 0 to memory.ram.Length
        invariant memory.ram[..i] == answer.ram[..i]
        modifies memory.ram
      {
        memory.ram[i] := answer.ram[i];
      }
      assert memory.ram[..] == answer.ram;
      var reply :- answer.answer;
      SyscallResult(reply);
      return Success(());
    }

    method Reset()
      requires Valid()
      modifies `programCounter, `memoryReservation, cpu.inner, controlStatus
      ensures Snapshot() == S.Reset(old(Snapshot()))
      ensures Snapshot()
           == Machine(0, seq(32, _ => 0), CsrFile(0, 0, 0, 0, 0, false, false, 0), old(memory.ram[..]), None)
    {
      programCounter := 0;
      cpu.Reset();
      controlStatus.Reset();
      memoryReservation := None;
    }
  }
}
