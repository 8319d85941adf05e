/** The register files, updated in place (src/interpreter/registers). */
module RegisterFiles {
  import opened Wrappers
  import opened Words
  import opened Machines
  import opened Csr

  /** src/interpreter/registers/cpu.rs */
  class CPURegisters {
    const inner: array<i32>

    ghost predicate Valid() { inner.Length == REGISTERS }

    ghost function Values(): Registers
      requires Valid()
      reads inner
    {
      inner[..]
    }

    constructor ()
      ensures Valid() && fresh(inner)
      ensures Values() == seq(32, _ => 0)
    {
      inner := new i32[REGISTERS](_ => 0);
    }

    method Get(index: bv8) returns (r: Result<i32, Error>)
      requires Valid()
      ensures index >= 32 ==> r == Failure(InvalidCPURegister(index))
      ensures index < 32 ==> Reg(index) < REGISTERS && r == Success(Values()[Reg(index)])
    {
      RegBound(index);
      if index >= 32 {
        return Failure(InvalidCPURegister(index));
      }
      return Success(inner[Reg(index)]);
    }

    /** Assignment through the reference that `get_mut` hands out. */
    method Set(index: bv8, value: i32) returns (r: Result<(), Error>)
      requires Valid()
      modifies inner
      ensures index >= 32 ==> r == Failure(InvalidCPURegister(index)) && Values() == old(Values())
      ensures index < 32 ==>
                r == Success(()) && Reg(index) < REGISTERS && Values() == old(Values())[Reg(index) := value]
    {
      RegBound(index);
      if index >= 32 {
        return Failure(InvalidCPURegister(index));
      }
      inner[Reg(index)] := value;
      return Success(());
    }

    method Reset()
      requires Valid()
      modifies inner
      ensures Values() == seq(32, _ => 0)
    {
      for i := 0 to REGISTERS
        invariant forall k | 0 <= k < i :: inner[k] == 0
      {
        inner[i] := 0;
      }
    }
  }

  /** src/interpreter/registers/control_status.rs */
  class CSRegisters {
    var mtvec: bv32
    var mscratch: bv32
    var mepc: bv32
    var mcause: bv32
    var mtval: bv32
    var mieEmbive: bool
    var mipEmbive: bool
    var mstatus: bv8

    ghost function Values(): CsrFile
      reads this
    {
      CsrFile(mtvec, mscratch, mepc, mcause, mtval, mieEmbive, mipEmbive, mstatus)
    }

    constructor ()
      ensures Values() == CsrFile(0, 0, 0, 0, 0, false, false, 0)
    {
      mtvec, mscratch, mepc, mcause, mtval := 0, 0, 0, 0, 0;
      mieEmbive, mipEmbive, mstatus := false, false, 0;
    }

    method Reset()
      modifies this
      ensures Values() == CsrFile(0, 0, 0, 0, 0, false, false, 0)
    {
      mtvec, mscratch, mepc, mcause, mtval := 0, 0, 0, 0, 0;
      mieEmbive, mipEmbive, mstatus := false, false, 0;
    }

    method ReadFrom(name: Name) returns (ret: bv32)
      ensures ret == Read(Values(), name)
    {
      hide InterruptBit;
      match name {
        case Mstatus => ret := mstatus as bv32;
        case Misa => ret := MISA;
        case Mie => ret := InterruptBit(mieEmbive);
        case Mtvec => ret := mtvec;
        case Mscratch => ret := mscratch;
        case Mepc => ret := mepc;
        case Mcause => ret := mcause;
        case Mtval => ret := mtval;
        case Mip => ret := InterruptBit(mipEmbive);
        case Zero => ret := 0;
      }
    }

    method WriteTo(name: Name, v: bv32)
      modifies this
      ensures Values() == Update(old(Values()), name, v)
    {
      hide StatusBits, HasInterruptBit, DirectVector, EvenAddress;
      match name {
        case Mstatus => mstatus := StatusBits(v);
        case Mie => mieEmbive := HasInterruptBit(v);
        case Mtvec => mtvec := DirectVector(v);
        case Mscratch => mscratch := v;
        case Mepc => mepc := EvenAddress(v);
        case Mcause => mcause := v;
        case Mtval => mtval := v;
        case Mip => mipEmbive := HasInterruptBit(v);
        case _ =>
      }
    }

    method Access(op: Option<CSOperation>, addr: bv16) returns (r: Result<bv32, Error>)
      modifies this
      ensures match Operation(old(Values()), op, addr)
              case Success(done) => r == Success(done.0) && Values() == done.1
              case Failure(e) => r == Failure(e) && Values() == old(Values())
    {
      hide ExecuteOperation, NameOf, Read, Update;
      match NameOf(addr) {
        case None => return Failure(InvalidCSRegister(addr));
        case Some(name) =>
          var ret := ReadFrom(name);
          WriteTo(name, ExecuteOperation(op, ret));
          return Success(ret);
      }
    }

    method SetInterrupt()
      modifies this
      ensures Values() == old(Values()).(mipEmbive := true)
    {
      mipEmbive := true;
    }

    method Enabled() returns (enabled: bool)
      ensures enabled == InterruptEnabled(Values())
    {
      enabled := mieEmbive && mstatus & MSTATUS_MIE != 0;
    }

    /** Returns the new program counter. */
    method EnterTrap(pc: u32, value: i32) returns (target: u32)
      modifies this
      ensures Values() == TrapEntry(old(Values()), pc, value)
      ensures target == UInt(old(mtvec) & !MTVEC_MODE)
    {
      if mstatus & MSTATUS_MIE != 0 {
        mstatus := mstatus | MSTATUS_MPIE;
      } else {
        mstatus := mstatus & !MSTATUS_MPIE;
      }
      mstatus := mstatus & !MSTATUS_MIE;
      mcause := MCAUSE_EMBIVE;
      mepc := Word(pc);
      mtval := Bits(value);
      target := UInt(mtvec & !MTVEC_MODE);
    }

    /** Returns the new program counter. */
    method LeaveTrap() returns (target: u32)
      modifies this
      ensures Values() == TrapReturn(old(Values()))
      ensures target == UInt(old(mepc))
    {
      if mstatus & MSTATUS_MPIE != 0 {
        mstatus := mstatus | MSTATUS_MIE;
      } else {
        mstatus := mstatus & !MSTATUS_MIE;
      }
      target := UInt(mepc);
    }
  }
}
