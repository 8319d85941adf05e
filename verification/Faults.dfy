/** The errors that an instruction can return, with what they carry (src/interpreter/error.rs). */
module Faults {
  import opened Wrappers
  import opened Words
  import opened Formats
  import opened Embive
  import opened Machines
  import opened MemoryModel
  import opened MemoryProofs
  import opened Exec
  import opened Meaning
  import opened Equivalence
  import opened Departures
  import opened MemoryMap
  import Effects
  import C = Csr
  import R = Riscv
  import Ref = Reference

  /** The end of a range, as an offset in the region where a load looks for it. */
  function LoadEnd(a: u32, n: nat): Error
    requires n <= 4
  {
    InvalidMemoryAddress((if a >= RAM_OFFSET then a - RAM_OFFSET else a) + n)
  }

  /** The same for a store, which always looks in RAM. */
  function StoreEnd(a: u32, n: nat): Error {
    InvalidMemoryAddress(WrapU32((if a >= RAM_OFFSET then a - RAM_OFFSET else a + RAM_OFFSET) + n))
  }

  /** The error of an atomic instruction: its load comes first. */
  function AtomicEnd(a: u32, code: Memory, m: Machine): Error {
    if Ref.Read(code, m.ram, a, 4).None? then LoadEnd(a, 4) else StoreEnd(a, 4)
  }

  /** The error of an instruction with a meaning; `None` if it never fails. */
  function ErrorFor(r: R.Instr, code: Memory, m: Machine): Option<Error> {
    match r
    case Load(k, _, rs1, imm) => Some(LoadEnd(Ref.Target(Src(m, rs1), imm), Ref.LoadWidth(k)))
    case Store(k, rs1, _, imm) => Some(StoreEnd(Ref.Target(Src(m, rs1), imm), Ref.StoreWidth(k)))
    case LoadReserved(_, rs1) => Some(LoadEnd(ToU32(Src(m, rs1)), 4))
    case StoreConditional(_, rs1, _) => Some(AtomicEnd(ToU32(Src(m, rs1)), code, m))
    case Amo(_, _, rs1, _) => Some(AtomicEnd(ToU32(Src(m, rs1)), code, m))
    case Csr(_, _, _, addr) => Some(InvalidCSRegister((addr & 0xFFF) as bv16))
    case _ => None
  }

  /** The error that an instruction returns when it fails; OP/AMO loads before it rejects a function. */
  function ErrorOf(e: Instruction, code: Memory, m: Machine): Option<Error> {
    if !Mean(e).Illegal? then ErrorFor(Mean(e), code, m)
    else if e.CAddi4spn? then Some(IllegalInstruction(m.pc))
    else if e.OpAmo? && Ref.Read(code, m.ram, ToU32(Src(m, Reg(e.r.rs1))), 4).None? then
      Some(LoadEnd(ToU32(Src(m, Reg(e.r.rs1))), 4))
    else Some(InvalidInstruction(m.pc))
  }

  predicate Explained(o: Outcome, error: Option<Error>) {
    o.result.Failure? ==> error == Some(o.result.error)
  }

  // Memory accesses.

  lemma LoadValueError(func: bv8, k: R.LoadKind, code: Memory, ram: Memory, a: u32)
    requires Fits(code, ram) && func == LoadFuncOf(k)
    ensures var v := LoadValue(func, code, ram, a); v.Failure? ==> v.error == LoadEnd(a, Ref.LoadWidth(k))
  {
    hide Signed, AsI8, AsI16, FromBytes2, FromBytes4, LoadBytes;
    FaultReportsEnd(code, ram, a, [0]);
    FaultReportsEnd(code, ram, a, [0, 0]);
    FaultReportsEnd(code, ram, a, [0, 0, 0, 0]);
  }

  lemma LoadExplained(m: Machine, rd: bv8, rs1: bv8, imm: bv32, k: R.LoadKind, size: Size, code: Memory)
    requires rd < 32 && rs1 < 32 && Fits(code, m.ram)
    ensures Explained(ExecLoad(m, rd, LoadValue(LoadFuncOf(k), code, m.ram, Address(Get(m, rs1), imm)), size),
                      Some(LoadEnd(Ref.Target(Src(m, Reg(rs1)), Signed(imm)), Ref.LoadWidth(k))))
  {
    hide Reg, Signed, Address, LoadValue, Ref.Target, Get, Src;
    GetSame(m, rs1);
    AddressSame(Get(m, rs1), imm);
    LoadValueError(LoadFuncOf(k), k, code, m.ram, Address(Get(m, rs1), imm));
  }

  lemma StoreExplained(m: Machine, rs1: bv8, rs2: bv8, imm: bv32, k: R.StoreKind, size: Size, code: Memory)
    requires rs1 < 32 && rs2 < 32 && Fits(code, m.ram)
    ensures Explained(ExecStore(m, Address(Get(m, rs1), imm), StoreData(StoreFuncOf(k), Get(m, rs2)), size),
                      Some(StoreEnd(Ref.Target(Src(m, Reg(rs1)), Signed(imm)), Ref.StoreWidth(k))))
  {
    hide Reg, Signed, Address, Ref.Target, Get, Src, StoreBytes, Bits;
    GetSame(m, rs1);
    AddressSame(Get(m, rs1), imm);
    FaultReportsEnd(code, m.ram, Address(Get(m, rs1), imm), StoreData(StoreFuncOf(k), Get(m, rs2)));
  }

  lemma LoadStoreError(t: TypeI, code: Memory, m: Machine)
    ensures ErrorOf(LoadStore(t), code, m) == ErrorFor(LoadStoreMeaning(t), code, m)
    ensures !LoadStoreMeaning(t).Illegal?
  {
    hide Reg, Signed, ErrorFor;
  }

  lemma LoadStoreExplained(t: TypeI, code: Memory, m: Machine)
    requires t.Encodable() && Fits(code, m.ram)
    ensures Explained(ExecLoadStore(t, code, m), ErrorOf(LoadStore(t), code, m))
  {
    hide Reg, Signed, Address, LoadValue, StoreData, ExecLoad, ExecStore, Explained, LoadEnd, StoreEnd, Get, Src,
      Ref.Target, ErrorOf;
    LoadStoreError(t, code, m);
    match t.func {
      case 0 => LoadExplained(m, t.rdRs2, t.rs1, t.imm, R.LB, WordSize, code);
      case 1 => LoadExplained(m, t.rdRs2, t.rs1, t.imm, R.LH, WordSize, code);
      case 2 => LoadExplained(m, t.rdRs2, t.rs1, t.imm, R.LW, WordSize, code);
      case 3 => LoadExplained(m, t.rdRs2, t.rs1, t.imm, R.LBU, WordSize, code);
      case 4 => LoadExplained(m, t.rdRs2, t.rs1, t.imm, R.LHU, WordSize, code);
      case 5 => StoreExplained(m, t.rs1, t.rdRs2, t.imm, R.SB, WordSize, code);
      case 6 => StoreExplained(m, t.rs1, t.rdRs2, t.imm, R.SH, WordSize, code);
      case _ => StoreExplained(m, t.rs1, t.rdRs2, t.imm, R.SW, WordSize, code);
    }
  }

  lemma CompressedLoadExplained(e: Instruction, code: Memory, m: Machine)
    requires e.Encodable() && Fits(code, m.ram) && (e.CLw? || e.CLwsp?)
    ensures Explained(Execute(e, code, m), ErrorOf(e, code, m))
  {
    hide Reg, Signed, Address, LoadValue, ExecLoad, Explained, LoadEnd, Get, Src, Ref.Target, Ref.Read;
    RegLiterals();
    match e {
      case CLw(t) => LoadExplained(m, t.rdRs2, t.rs1, t.imm, R.LW, HalfSize, code);
      case CLwsp(t) => LoadExplained(m, t.rdRs1, SP, t.imm, R.LW, HalfSize, code);
    }
  }

  lemma CompressedStoreExplained(e: Instruction, code: Memory, m: Machine)
    requires e.Encodable() && Fits(code, m.ram) && (e.CSw? || e.CSwsp?)
    ensures Explained(Execute(e, code, m), ErrorOf(e, code, m))
  {
    hide Reg, Signed, Address, StoreData, ExecStore, Explained, StoreEnd, Get, Src, Ref.Target, Ref.Read;
    RegLiterals();
    match e {
      case CSw(t) => StoreExplained(m, t.rs1, t.rdRs2, t.imm, R.SW, HalfSize, code);
      case CSwsp(t) => StoreExplained(m, SP, t.rs2, t.imm, R.SW, HalfSize, code);
    }
  }

  // Atomics.

  lemma WordErrors(code: Memory, ram: Memory, a: u32, value: i32)
    requires Fits(code, ram)
    ensures LoadWord(code, ram, a).Failure? ==> LoadWord(code, ram, a).error == LoadEnd(a, 4)
    ensures StoreWord(ram, a, value).Failure? ==> StoreWord(ram, a, value).error == StoreEnd(a, 4)
  {
    hide FromBytes4, LoadBytes, StoreBytes, Bits;
    FaultReportsEnd(code, ram, a, ToBytes4(Bits(value)));
  }

  lemma AtomicExplained(t: TypeR, a: u32, v: i32, b: i32, code: Memory, m: Machine)
    requires t.Encodable() && Fits(code, m.ram)
    ensures Explained(ExecAtomic(t, a, v, b, m),
                      Some(if t.func == 19 || AmoResult(t.func, v, b).Some? then StoreEnd(a, 4)
                           else InvalidInstruction(m.pc)))
  {
    hide StoreWord, AmoResult, PutUnlessZero, StoreEnd;
    WordErrors(code, m.ram, a, b);
    if AmoResult(t.func, v, b).Some? {
      WordErrors(code, m.ram, a, AmoResult(t.func, v, b).value);
    }
  }

  lemma OpAmoError(t: TypeR, code: Memory, m: Machine)
    ensures var a := ToU32(Src(m, Reg(t.rs1)));
            ErrorOf(OpAmo(t), code, m)
            == if AluOf(t.func).Some? then None
               else if t.func == 18 then Some(LoadEnd(a, 4))
               else if t.func == 19 || AmoOf(t.func).Some? || Ref.Read(code, m.ram, a, 4).None? then
                 Some(AtomicEnd(a, code, m))
               else Some(InvalidInstruction(m.pc))
  {
    hide Reg, ToU32, Src, AluOf, AmoOf, LoadEnd, StoreEnd, Ref.Read, Mean;
    MeanOpAmo(t);
  }

  lemma OpAmoExplained(t: TypeR, code: Memory, m: Machine)
    requires t.Encodable() && Fits(code, m.ram)
    ensures Explained(ExecOpAmo(t, code, m), ErrorOf(OpAmo(t), code, m))
  {
    hide Reg, Signed, ToU32, Get, Src, LoadWord, ExecAtomic, Alu, AluOf, AmoOf, AmoResult, LoadEnd, StoreEnd,
      Ref.Read, PutUnlessZero, ErrorOf;
    var a, b := ToU32(Get(m, t.rs1)), Get(m, t.rs2);
    OpAmoError(t, code, m);
    GetSame(m, t.rs1);
    UndefinedAlu(t.func, Get(m, t.rs1), b);
    WordSame(code, m.ram, a);
    WordErrors(code, m.ram, a, b);
    if LoadWord(code, m.ram, a).Success? {
      var v := Signed(LoadWord(code, m.ram, a).value);
      UndefinedAmo(t.func, v, b);
      AtomicExplained(t, a, v, b, code, m);
      LoadReservedSucceeds(t, a, v, b, m);
    }
  }

  lemma LoadReservedSucceeds(t: TypeR, a: u32, v: i32, b: i32, m: Machine)
    requires t.Encodable()
    ensures t.func == 18 ==> ExecAtomic(t, a, v, b, m).result.Success?
  {
    hide StoreWord, AmoResult, PutUnlessZero;
  }

  // Everything else.

  lemma CsrField(imm: bv32)
    ensures CsrAddress(imm) == (Low12(imm) & 0xFFF) as bv16
  {
  }

  lemma PrivilegedExplained(t: TypeI, code: Memory, m: Machine)
    requires t.Encodable() && t.func == 0
    ensures Explained(ExecSystem(t, m), ErrorOf(SystemMiscMem(t), code, m))
  {
    hide UInt, C.TrapReturn, Ref.Read, Mean;
    SystemMeans(t);
  }

  lemma CsrOrIllegal(t: TypeI)
    requires t.func != 0
    ensures SystemMeaning(t).Csr? || SystemMeaning(t).Illegal?
  {
    hide Reg, Low12;
  }

  lemma CsrError(t: TypeI, code: Memory, m: Machine)
    requires t.func != 0
    ensures SystemMeaning(t).Csr? || SystemMeaning(t).Illegal?
    ensures ErrorOf(SystemMiscMem(t), code, m)
         == Some(if SystemMeaning(t).Csr? then InvalidCSRegister(CsrAddress(t.imm)) else InvalidInstruction(m.pc))
  {
    hide Reg, CsrAddress, Low12, Mean, SystemMeaning;
    CsrOrIllegal(t);
    SystemMeans(t);
    CsrField(t.imm);
    if SystemMeaning(t).Csr? {
      CsrFields(t);
    }
  }

  lemma CsrKnown(t: TypeI, m: Machine)
    requires t.Encodable() && t.func != 0
    ensures CsrOperation(t, m).Some? <==> SystemMeaning(t).Csr?
  {
    hide Reg, Get, Bits, Low12;
  }

  lemma CsrExplained(t: TypeI, code: Memory, m: Machine)
    requires t.Encodable() && t.func != 0
    ensures Explained(ExecCsr(t, m), ErrorOf(SystemMiscMem(t), code, m))
  {
    hide Signed, C.Operation, CsrOperation, CsrAddress, PutUnlessZero, SystemMeaning, ErrorOf;
    CsrError(t, code, m);
    CsrKnown(t, m);
    if CsrOperation(t, m).Some? {
      Effects.OperationErrors(m.csr, CsrOperation(t, m).value, CsrAddress(t.imm));
    }
  }

  lemma SystemExplained(t: TypeI, code: Memory, m: Machine)
    requires t.Encodable()
    ensures Explained(ExecSystem(t, m), ErrorOf(SystemMiscMem(t), code, m))
  {
    hide ExecCsr, ErrorOf;
    if t.func == 0 {
      PrivilegedExplained(t, code, m);
    } else {
      CsrExplained(t, code, m);
    }
  }

  lemma BranchExplained(t: TypeB, code: Memory, m: Machine)
    requires t.Encodable()
    ensures Explained(ExecBranch(t, m), ErrorOf(Branch(t), code, m))
  {
    hide Reg, Signed, Get, ToU32, Ref.Read;
  }

  lemma CompressedExplained(e: Instruction, code: Memory, m: Machine)
    requires e.Encodable() && e.Size() == HalfSize && !e.CLw? && !e.CLwsp? && !e.CSw? && !e.CSwsp?
    ensures Explained(Execute(e, code, m), ErrorOf(e, code, m))
  {
    hide Reg, Signed, UInt, Get, WrapI32, Xor, Or, And, ShiftRightLogical, ShiftRightArithmetic, Pow2, Link, Put,
      PutUnlessZero, Advance, JumpBy, Ref.Read, Src, ToU32, Ref.Target;
  }

  lemma FullExplained(e: Instruction, code: Memory, m: Machine)
    requires e.Encodable() && (e.Auipc? || e.Lui? || e.Jal? || e.Jalr? || e.OpImm?)
    ensures Execute(e, code, m).result.Success?
  {
    hide Signed, Get, Address, OpImmResult, Link, PutUnlessZero, Advance, JumpBy;
  }

  /** An instruction that fails returns the error that `ErrorOf` names, and one for which it names none succeeds. */
  lemma ErrorsExactly(e: Instruction, code: Memory, m: Machine)
    requires e.Encodable() && Fits(code, m.ram)
    ensures Explained(Execute(e, code, m), ErrorOf(e, code, m))
  {
    hide ErrorOf, ExecOpAmo, ExecSystem, ExecBranch, ExecLoadStore;
    match e {
      case CLw(_) => CompressedLoadExplained(e, code, m);
      case CLwsp(_) => CompressedLoadExplained(e, code, m);
      case CSw(_) => CompressedStoreExplained(e, code, m);
      case CSwsp(_) => CompressedStoreExplained(e, code, m);
      case LoadStore(t) => LoadStoreExplained(t, code, m);
      case OpAmo(t) => OpAmoExplained(t, code, m);
      case SystemMiscMem(t) => SystemExplained(t, code, m);
      case Branch(t) => BranchExplained(t, code, m);
      case Auipc(_) => FullExplained(e, code, m);
      case Lui(_) => FullExplained(e, code, m);
      case Jal(_) => FullExplained(e, code, m);
      case Jalr(_) => FullExplained(e, code, m);
      case OpImm(_) => FullExplained(e, code, m);
      case _ => CompressedExplained(e, code, m);
    }
  }
}
